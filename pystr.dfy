/**
 * The parts of Python's `str`, `int()` and `posixpath` that the crawler relies on,
 * over ASCII text. Each function names the Python expression it stands for.
 */
module PyStr {
  import opened Wrappers

  /** The ASCII characters for which `str.isspace()` holds. */
  const Whitespace: set<char> :=
    {' ', '\t', '\n', '\r', '\U{000B}', '\U{000C}', '\U{001C}', '\U{001D}', '\U{001E}', '\U{001F}'}

  predicate IsUpper(c: char) { 'A' <= c <= 'Z' }

  function LowerChar(c: char): (d: char)
    ensures !IsUpper(d)
    ensures !IsUpper(c) ==> d == c
  {
    if IsUpper(c) then (c as int + 32) as char else c
  }

  /** `s.lower()` (ASCII letters only). */
  function Lower(s: string): (r: string)
    ensures |r| == |s|
    ensures forall i :: 0 <= i < |s| ==> r[i] == LowerChar(s[i])
  {
    seq(|s|, i requires 0 <= i < |s| => LowerChar(s[i]))
  }

  predicate NoUpper(s: string) {
    forall i :: 0 <= i < |s| ==> !IsUpper(s[i])
  }

  /** `s.lstrip(chars)`. */
  function LStrip(s: string, chars: set<char>): (r: string)
    ensures |r| <= |s| && r == s[|s| - |r|..]
    ensures r == [] || r[0] !in chars
    ensures forall i :: 0 <= i < |s| - |r| ==> s[i] in chars
    decreases |s|
  {
    if |s| > 0 && s[0] in chars then LStrip(s[1..], chars) else s
  }

  /** `s.rstrip(chars)`. */
  function RStrip(s: string, chars: set<char>): (r: string)
    ensures |r| <= |s| && r == s[..|r|]
    ensures r == [] || r[|r| - 1] !in chars
    ensures forall i :: |r| <= i < |s| ==> s[i] in chars
    decreases |s|
  {
    if |s| > 0 && s[|s| - 1] in chars then RStrip(s[..|s| - 1], chars) else s
  }

  /** `s.strip(chars)`. */
  function StripChars(s: string, chars: set<char>): (r: string)
    ensures |r| <= |s|
    ensures r == [] || (r[0] !in chars && r[|r| - 1] !in chars)
  {
    RStrip(LStrip(s, chars), chars)
  }

  /** `s.strip()`. */
  function Strip(s: string): string {
    StripChars(s, Whitespace)
  }

  /** A string that neither begins nor ends with whitespace is its own `strip()`. */
  lemma StripUnchanged(s: string)
    requires s == [] || (s[0] !in Whitespace && s[|s| - 1] !in Whitespace)
    ensures Strip(s) == s
  {
  }

  /** A text that does not start with a stripped character is its own left strip. */
  lemma LStripKeeps(s: string, chars: set<char>)
    requires s != [] && s[0] !in chars
    ensures LStrip(s, chars) == s
  {
  }

  /** A text that does not end with a stripped character is its own right strip. */
  lemma RStripKeeps(s: string, chars: set<char>)
    requires s != [] && s[|s| - 1] !in chars
    ensures RStrip(s, chars) == s
  {
  }

  /** `s.find(c)`: the first index of `c`, or -1. */
  function Find(s: string, c: char): (r: int)
    ensures -1 <= r < |s|
    ensures r == -1 <==> c !in s
    ensures r >= 0 ==> s[r] == c && c !in s[..r]
    decreases |s|
  {
    if |s| == 0 then -1
    else if s[0] == c then 0
    else
      var k := Find(s[1..], c);
      assert forall x :: x in s ==> x == s[0] || x in s[1..];
      if k < 0 then -1
      else
        assert s[..k + 1] == [s[0]] + s[1..][..k];
        k + 1
  }

  /** `s.rfind(c)`: the last index of `c`, or -1. */
  function RFind(s: string, c: char): (r: int)
    ensures -1 <= r < |s|
    ensures r == -1 <==> c !in s
    ensures r >= 0 ==> s[r] == c
    ensures forall j :: r < j < |s| ==> s[j] != c
    decreases |s|
  {
    if |s| == 0 then -1
    else if s[|s| - 1] == c then |s| - 1
    else
      var k := RFind(s[..|s| - 1], c);
      assert forall x :: x in s <==> x in s[..|s| - 1] || x == s[|s| - 1];
      k
  }

  /** The last `c` in `s` is at `k` when `s[k]` is `c` and nothing after it is. */
  lemma RFindAt(s: string, c: char, k: int)
    requires 0 <= k < |s| && s[k] == c
    requires forall j :: k < j < |s| ==> s[j] != c
    ensures RFind(s, c) == k
  {
    assert c in s;
  }

  /** The first `c` in `s` is at `k` when `s[k]` is `c` and `c` does not occur before it. */
  lemma FindAt(s: string, c: char, k: int)
    requires 0 <= k < |s| && s[k] == c && c !in s[..k]
    ensures Find(s, c) == k
  {
    assert c in s;
  }

  /** `t in s` for strings: `t` occurs in `s` as a contiguous substring. */
  predicate Contains(s: string, t: string) {
    exists i :: 0 <= i <= |s| - |t| && OccursAt(s, t, i)
  }

  predicate OccursAt(s: string, t: string, i: int) {
    0 <= i <= |s| - |t| && s[i..i + |t|] == t
  }

  /** `s.startswith(t)`. */
  predicate StartsWith(s: string, t: string) {
    |t| <= |s| && s[..|t|] == t
  }

  /** `s.split(c)[0]`: the text before the first `c` (all of `s` when there is none). */
  function Before(s: string, c: char): (r: string)
    ensures c !in r
    ensures c in s ==> |r| < |s| && s == r + [c] + s[|r| + 1..]
    ensures c !in s ==> r == s
  {
    if c in s then
      var i := Find(s, c);
      assert s == s[..i] + [c] + s[i + 1..];
      s[..i]
    else s
  }

  /** `s.split(c, 1)` when `c in s`: the parts before and after the first `c`. */
  function SplitOnce(s: string, c: char): (r: (string, string))
    requires c in s
    ensures s == r.0 + [c] + r.1 && c !in r.0
  {
    var i := Find(s, c);
    (s[..i], s[i + 1..])
  }

  /** Splitting `a + [c] + b` at its first `c`, when `a` holds none, gives back `a` and `b`. */
  lemma BeforeOf(a: string, c: char, b: string)
    requires c !in a
    ensures Before(a + [c] + b, c) == a
    ensures SplitOnce(a + [c] + b, c) == (a, b)
  {
    var s := a + [c] + b;
    assert s[..|a|] == a;
    FindAt(s, c, |a|);
    assert s[|a| + 1..] == b;
  }

  /** `s` cut at every character in `seps` (Python's `s.split(c)` when `seps == {c}`). */
  function SplitAny(s: string, seps: set<char>): (r: seq<string>)
    ensures |r| >= 1
    ensures forall k, j :: 0 <= k < |r| && 0 <= j < |r[k]| ==> r[k][j] !in seps
    decreases |s|
  {
    if |s| == 0 then [""]
    else
      var rest := SplitAny(s[1..], seps);
      if s[0] in seps then [""] + rest
      else
        var head := [s[0]] + rest[0];
        assert forall j :: 1 <= j < |head| ==> head[j] == rest[0][j - 1];
        [head] + rest[1..]
  }

  /** `s.split(c)`. */
  function Split(s: string, c: char): (r: seq<string>)
    ensures |r| >= 1
    ensures forall k :: 0 <= k < |r| ==> c !in r[k]
  {
    var r := SplitAny(s, {c});
    assert forall k :: 0 <= k < |r| ==> c !in r[k] by {
      forall k | 0 <= k < |r| ensures c !in r[k] {
        assert forall j :: 0 <= j < |r[k]| ==> r[k][j] != c;
      }
    }
    r
  }

  /** The first piece of a split is the text before the first separator. */
  lemma {:induction false} SplitFirst(s: string, c: char)
    ensures Split(s, c)[0] == Before(s, c)
    decreases |s|
  {
    if |s| > 0 && s[0] != c {
      SplitFirst(s[1..], c);
      BeforeCons(s, c);
    }
  }

  /** Text before the first `c`, one leading non-separator at a time. */
  lemma BeforeCons(s: string, c: char)
    requires |s| > 0 && s[0] != c
    ensures Before(s, c) == [s[0]] + Before(s[1..], c)
  {
    assert c in s <==> c in s[1..] by {
      assert forall x :: x in s <==> x == s[0] || x in s[1..];
    }
    if c in s {
      assert Find(s, c) == Find(s[1..], c) + 1;
      assert s[..Find(s, c)] == [s[0]] + s[1..][..Find(s[1..], c)];
    }
  }

  /** Cutting `a + [c] + b` at a separator `c`, where `a` holds no separator, gives `a` and then
      the pieces of `b`. */
  lemma {:induction false} SplitAfter(a: string, c: char, b: string, seps: set<char>)
    requires c in seps
    requires forall k :: 0 <= k < |a| ==> a[k] !in seps
    ensures SplitAny(a + [c] + b, seps) == [a] + SplitAny(b, seps)
    decreases |a|
  {
    if a == [] {
      assert a + [c] + b == [c] + b;
      assert ([c] + b)[1..] == b;
    } else {
      assert (a + [c] + b)[1..] == a[1..] + [c] + b;
      SplitAfter(a[1..], c, b, seps);
      assert [a[0]] + a[1..] == a;
    }
  }

  /** A string without separators is a single piece. */
  lemma {:induction false} SplitNone(s: string, seps: set<char>)
    requires forall k :: 0 <= k < |s| ==> s[k] !in seps
    ensures SplitAny(s, seps) == [s]
    decreases |s|
  {
    if s != [] {
      SplitNone(s[1..], seps);
      assert [s[0]] + s[1..] == s;
    }
  }

  /** Splitting a join at its separator gives back the parts, when no part holds the separator. */
  lemma {:induction false} SplitJoin(parts: seq<string>, c: char)
    requires |parts| >= 1
    requires forall k :: 0 <= k < |parts| ==> c !in parts[k]
    ensures Split(Join([c], parts), c) == parts
    decreases |parts|
  {
    if |parts| == 1 {
      SplitNone(parts[0], {c});
    } else {
      SplitJoin(parts[1..], c);
      SplitAfter(parts[0], c, Join([c], parts[1..]), {c});
      assert [parts[0]] + parts[1..] == parts;
    }
  }

  /** Cutting at a separator between `a` and `b` gives the pieces of `a` followed by those of `b`,
      whatever separators `a` and `b` hold themselves. */
  lemma {:induction false} SplitConcat(a: string, c: char, b: string, seps: set<char>)
    requires c in seps
    ensures SplitAny(a + [c] + b, seps) == SplitAny(a, seps) + SplitAny(b, seps)
    decreases |a|
  {
    var t := a + [c] + b;
    if a == [] {
      assert t == [c] + b && t[1..] == b;
    } else {
      assert t[0] == a[0] && t[1..] == a[1..] + [c] + b;
      SplitConcat(a[1..], c, b, seps);
      var pa, pb := SplitAny(a[1..], seps), SplitAny(b, seps);
      SplitAnyCons(t, seps);
      SplitAnyCons(a, seps);
      HeadTail(pa, pb);
      if a[0] in seps {
        ConsAppend("", pa, pb);
      } else {
        ConsAppend([a[0]] + pa[0], pa[1..], pb);
      }
    }
  }

  /** The first step of cutting a non-empty text. */
  lemma SplitAnyCons(s: string, seps: set<char>)
    requires s != []
    ensures s[0] in seps ==> SplitAny(s, seps) == [""] + SplitAny(s[1..], seps)
    ensures s[0] !in seps ==>
      SplitAny(s, seps) == [[s[0]] + SplitAny(s[1..], seps)[0]] + SplitAny(s[1..], seps)[1..]
  {
  }

  /** The head and tail of a concatenation whose first part is not empty. */
  lemma HeadTail<T>(u: seq<T>, v: seq<T>)
    requires u != []
    ensures (u + v)[0] == u[0] && (u + v)[1..] == u[1..] + v
  {
  }

  /** Putting an element in front regroups with a concatenation. */
  lemma ConsAppend<T>(x: T, u: seq<T>, v: seq<T>)
    ensures [x] + (u + v) == ([x] + u) + v
  {
  }

  /** The pieces of every part, one part after the other. */
  function SplitEach(parts: seq<string>, c: char): seq<string>
    decreases |parts|
  {
    if parts == [] then [] else Split(parts[0], c) + SplitEach(parts[1..], c)
  }

  /** Cutting a join at its own separator gives the pieces of the parts in order, even when the
      parts hold the separator too. */
  lemma {:induction false} SplitJoinEach(parts: seq<string>, c: char)
    requires |parts| >= 1
    ensures Split(Join([c], parts), c) == SplitEach(parts, c)
    decreases |parts|
  {
    if |parts| == 1 {
      assert SplitEach(parts, c) == Split(parts[0], c) + SplitEach([], c);
    } else {
      SplitJoinEach(parts[1..], c);
      SplitConcat(parts[0], c, Join([c], parts[1..]), {c});
    }
  }

  /** A join of non-empty parts is empty exactly when there are no parts. */
  lemma JoinEmpty(sep: string, parts: seq<string>)
    requires forall k :: 0 <= k < |parts| ==> parts[k] != []
    ensures Join(sep, parts) == [] <==> parts == []
  {
  }

  /** The pieces of `s` that are not empty. */
  function NonEmpty(parts: seq<string>): (r: seq<string>)
    ensures forall k :: 0 <= k < |r| ==> r[k] != [] && r[k] in parts
    ensures forall p :: p in parts && p != [] ==> p in r
    decreases |parts|
  {
    if parts == [] then []
    else if parts[0] == [] then NonEmpty(parts[1..])
    else [parts[0]] + NonEmpty(parts[1..])
  }

  /** Dropping the empty pieces distributes over concatenation. */
  lemma {:induction false} NonEmptyAppend(a: seq<string>, b: seq<string>)
    ensures NonEmpty(a + b) == NonEmpty(a) + NonEmpty(b)
    decreases |a|
  {
    if a == [] {
      assert a + b == b;
    } else {
      assert (a + b)[1..] == a[1..] + b;
      NonEmptyAppend(a[1..], b);
    }
  }

  /** `s.split()`: the maximal runs of non-whitespace characters. */
  function SplitWs(s: string): (r: seq<string>)
    ensures forall k :: 0 <= k < |r| ==> r[k] != []
    ensures forall k, j :: 0 <= k < |r| && 0 <= j < |r[k]| ==> r[k][j] !in Whitespace
  {
    var parts := SplitAny(s, Whitespace);
    var r := NonEmpty(parts);
    assert forall k :: 0 <= k < |r| ==> r[k] in parts;
    r
  }

  /** `sep.join(parts)`. */
  function Join(sep: string, parts: seq<string>): string
    decreases |parts|
  {
    if |parts| == 0 then ""
    else if |parts| == 1 then parts[0]
    else parts[0] + sep + Join(sep, parts[1..])
  }

  /** A join begins with its first piece. */
  lemma JoinStartsWithFirst(sep: string, parts: seq<string>)
    ensures parts != [] ==> StartsWith(Join(sep, parts), parts[0])
  {
    if |parts| > 1 {
      assert Join(sep, parts) == parts[0] + (sep + Join(sep, parts[1..]));
    }
  }

  /** `s.replace(a, b)` for single characters. */
  function ReplaceChar(s: string, a: char, b: char): (r: string)
    ensures |r| == |s|
    ensures forall i :: 0 <= i < |s| ==> r[i] == if s[i] == a then b else s[i]
  {
    seq(|s|, i requires 0 <= i < |s| => if s[i] == a then b else s[i])
  }

  /** `re.sub('[...]', '', s)`: `s` without the characters in `chars`. */
  function RemoveChars(s: string, chars: set<char>): (r: string)
    ensures |r| <= |s|
    ensures forall k :: 0 <= k < |r| ==> r[k] in s && r[k] !in chars
    decreases |s|
  {
    if s == [] then []
    else
      var rest := RemoveChars(s[1..], chars);
      assert forall x :: x in s[1..] ==> x in s;
      if s[0] in chars then rest else [s[0]] + rest
  }

  /** `re.sub(c + '+', c, s)`: every run of `c` shortened to one `c`. */
  function CollapseRuns(s: string, c: char): (r: string)
    ensures |r| <= |s|
    ensures forall k :: 0 <= k < |r| ==> r[k] in s
    ensures forall k :: 0 <= k < |r| - 1 ==> !(r[k] == c && r[k + 1] == c)
    ensures |s| > 0 ==> |r| > 0 && r[0] == s[0]
    decreases |s|
  {
    if |s| <= 1 then s
    else
      var rest := CollapseRuns(s[1..], c);
      assert forall x :: x in s[1..] ==> x in s;
      if s[0] == c && s[1] == c then rest else [s[0]] + rest
  }

  /** `lower`, character replacement, removal and run collapsing work piece by piece. */
  lemma LowerAppend(p: string, q: string)
    ensures Lower(p + q) == Lower(p) + Lower(q)
  {
    assert forall i :: 0 <= i < |p| + |q| ==> (p + q)[i] == if i < |p| then p[i] else q[i - |p|];
  }

  lemma ReplaceCharAppend(p: string, q: string, a: char, b: char)
    ensures ReplaceChar(p + q, a, b) == ReplaceChar(p, a, b) + ReplaceChar(q, a, b)
  {
    assert forall i :: 0 <= i < |p| + |q| ==> (p + q)[i] == if i < |p| then p[i] else q[i - |p|];
  }

  lemma {:induction false} RemoveCharsAppend(p: string, q: string, chars: set<char>)
    ensures RemoveChars(p + q, chars) == RemoveChars(p, chars) + RemoveChars(q, chars)
    decreases |p|
  {
    if p != [] {
      assert (p + q)[1..] == p[1..] + q;
      RemoveCharsAppend(p[1..], q, chars);
    } else {
      assert p + q == q;
    }
  }

  /** Removing characters a string does not hold leaves it unchanged. */
  lemma {:induction false} RemoveCharsNone(s: string, chars: set<char>)
    requires forall i :: 0 <= i < |s| ==> s[i] !in chars
    ensures RemoveChars(s, chars) == s
    decreases |s|
  {
    if s != [] {
      RemoveCharsNone(s[1..], chars);
      assert s == [s[0]] + s[1..];
    }
  }

  /** A prefix free of `c` passes through run collapsing unchanged. */
  lemma {:induction false} CollapsePrefix(p: string, q: string, c: char)
    requires c !in p
    ensures CollapseRuns(p + q, c) == p + CollapseRuns(q, c)
    decreases |p|
  {
    if p != [] {
      var s := p + q;
      if |s| == 1 {
        assert q == [] && s == p;
      } else {
        assert s[1..] == p[1..] + q;
        CollapsePrefix(p[1..], q, c);
        assert p == [p[0]] + p[1..];
      }
    } else {
      assert p + q == q;
    }
  }

  // ---------------------------------------------------------------- integers

  function DigitChar(d: nat): char
    requires d < 10
  {
    "0123456789"[d]
  }

  predicate IsAsciiDigit(c: char) { '0' <= c <= '9' }

  predicate AllDigits(s: string) {
    forall i :: 0 <= i < |s| ==> IsAsciiDigit(s[i])
  }

  /** `s.isdigit()` (ASCII digits). */
  predicate IsDigitStr(s: string) {
    |s| > 0 && AllDigits(s)
  }

  /** Decimal digits of `n`, most significant first, no leading zeros. */
  function NatToString(n: nat): (r: string)
    ensures |r| > 0 && AllDigits(r)
    decreases n
  {
    if n < 10 then [DigitChar(n)] else NatToString(n / 10) + [DigitChar(n % 10)]
  }

  /** `str(n)` for an `int`. */
  function IntToString(n: int): (r: string)
    ensures |r| > 0
    ensures forall i :: 0 <= i < |r| ==> IsAsciiDigit(r[i]) || (i == 0 && r[i] == '-')
  {
    if n < 0 then "-" + NatToString(-n) else NatToString(n)
  }

  /** The value of a string of decimal digits, most significant first. */
  function DigitsValue(s: string): nat
    requires AllDigits(s)
    decreases |s|
  {
    if s == [] then 0
    else DigitsValue(s[..|s| - 1]) * 10 + (s[|s| - 1] as int - '0' as int)
  }

  /** `int(s)` for a string: surrounding whitespace, an optional sign, and ASCII digits. */
  function ParseInt(s: string): Option<int> {
    ParseStripped(Strip(s))
  }

  function ParseStripped(t: string): Option<int> {
    if |t| >= 2 && t[0] == '-' && AllDigits(t[1..]) then
      var v: int := DigitsValue(t[1..]);
      Some(-v)
    else if |t| >= 2 && t[0] == '+' && AllDigits(t[1..]) then Some(DigitsValue(t[1..]))
    else if |t| >= 1 && AllDigits(t) then Some(DigitsValue(t))
    else None
  }

  lemma {:induction false} DigitsOfNat(n: nat)
    ensures DigitsValue(NatToString(n)) == n
    decreases n
  {
    var s := NatToString(n);
    if n >= 10 {
      DigitsOfNat(n / 10);
      assert s[..|s| - 1] == NatToString(n / 10);
    }
  }

  lemma PrintedIsStripped(n: int)
    ensures ParseInt(IntToString(n)) == ParseStripped(IntToString(n))
  {
    var s := IntToString(n);
    assert s[0] !in Whitespace && s[|s| - 1] !in Whitespace;
    StripUnchanged(s);
  }

  lemma ParsePrintedNegative(n: int)
    requires n < 0
    ensures ParseStripped(IntToString(n)) == Some(n)
  {
    NegativeShape(n);
    ParseNegativeOf(IntToString(n), -n);
  }

  /** A negative integer prints as a minus sign followed by the digits of its magnitude. */
  lemma NegativeShape(n: int)
    requires n < 0
    ensures |IntToString(n)| >= 2 && IntToString(n)[0] == '-'
    ensures IntToString(n)[1..] == NatToString(-n)
  {
    var s := IntToString(n);
    assert s == "-" + NatToString(-n);
  }

  /** A minus sign followed by digits parses to the negated value of the digits. */
  lemma ParseNegativeOf(s: string, m: nat)
    requires |s| >= 2 && s[0] == '-' && s[1..] == NatToString(m)
    ensures ParseStripped(s) == Some(-(m as int))
  {
    DigitsOfNat(m);
  }

  /** `int(str(n)) == n`. */
  lemma IntRoundTrip(n: int)
    ensures ParseInt(IntToString(n)) == Some(n)
  {
    PrintedIsStripped(n);
    if n < 0 {
      ParsePrintedNegative(n);
    } else {
      DigitsOfNat(n);
    }
  }

  /** A printed integer holds only digits and a leading minus sign. */
  lemma IntToStringLacks(n: int, c: char)
    requires c != '-' && !IsAsciiDigit(c)
    ensures c !in IntToString(n)
  {
    var s := IntToString(n);
    forall k | 0 <= k < |s| ensures s[k] != c {
    }
  }

  /** The text of `a + e` before its first `.`, when `a` has none and `e` starts with one. */
  lemma StemOf(a: string, e: string)
    requires '.' !in a && e != [] && e[0] == '.'
    ensures Before(a + e, '.') == a
  {
    assert a + e == a + ['.'] + e[1..];
    BeforeOf(a, '.', e[1..]);
  }

  /** Distinct integers print differently. */
  lemma IntToStringInjective(a: int, b: int)
    requires IntToString(a) == IntToString(b)
    ensures a == b
  {
    IntRoundTrip(a);
    IntRoundTrip(b);
  }

  // ---------------------------------------------------------------- paths (posixpath)

  /** `os.path.join(a, b)`. */
  function PathJoin(a: string, b: string): string {
    if |b| > 0 && b[0] == '/' then b
    else if a == [] || a[|a| - 1] == '/' then a + b
    else a + "/" + b
  }

  /** `os.path.dirname(p)`. */
  function Dirname(p: string): string {
    var head := p[..RFind(p, '/') + 1];
    if head != [] && exists k :: 0 <= k < |head| && head[k] != '/' then RStrip(head, {'/'}) else head
  }

  predicate HasNonDot(p: string, lo: int, hi: int)
    requires 0 <= lo && hi <= |p|
  {
    exists k :: lo <= k < hi && p[k] != '.'
  }

  /** `os.path.splitext(p)`: a suffix from the last `.` of the last path component, unless
      that component consists of dots up to it (a leading-dot name has no extension). */
  function SplitExt(p: string): (r: (string, string))
    ensures r.0 + r.1 == p
    ensures r.1 == [] || r.1[0] == '.'
    ensures '/' !in r.1
  {
    var sepIndex := RFind(p, '/');
    var dotIndex := RFind(p, '.');
    if dotIndex > sepIndex && HasNonDot(p, sepIndex + 1, dotIndex) then
      assert '/' !in p[dotIndex..] by {
        forall j | 0 <= j < |p| - dotIndex ensures p[dotIndex..][j] != '/' {
          assert p[dotIndex..][j] == p[dotIndex + j];
        }
      }
      (p[..dotIndex], p[dotIndex..])
    else (p, "")
  }

  /** The `splitext` suffix of `dir + stem + ext`, where the last component ends in `stem + ext`,
      `stem` holds no dot and `ext` is one dot followed by dot-free text. */
  lemma SplitExtOf(dir: string, stem: string, ext: string)
    requires stem != [] && '.' !in stem && '/' !in stem
    requires ext != [] && ext[0] == '.' && '.' !in ext[1..] && '/' !in ext
    ensures SplitExt(dir + stem + ext).1 == ext
  {
    var p := dir + stem + ext;
    var n := |dir| + |stem|;
    assert p[n] == '.';
    assert forall j :: n < j < |p| ==> p[j] == ext[1..][j - n - 1];
    RFindAt(p, '.', n);
    assert forall j :: |dir| <= j < |p| ==> p[j] != '/' by {
      forall j | |dir| <= j < |p| ensures p[j] != '/' {
        if j < n { assert p[j] == stem[j - |dir|]; } else { assert p[j] == ext[j - n]; }
      }
    }
    var sepIndex := RFind(p, '/');
    assert sepIndex < |dir|;
    assert p[|dir|] == stem[0] && stem[0] != '.';
    assert HasNonDot(p, sepIndex + 1, n);
    assert p[n..] == ext;
  }
}
