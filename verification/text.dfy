/** String helpers shared by every service: the ASCII character classes behind
    Python's `str.lower`, `str.strip` and the regex classes `\w`, `\s`, `\d`,
    the scanners for the few regexes the services use, `str.join`,
    `str.split`, decimal formatting and Python slicing. */
module Text {

  // ---------------------------------------------------------------------------
  // Character classes

  predicate IsDigit(c: char) { '0' <= c <= '9' }

  predicate IsLowerAlpha(c: char) { 'a' <= c <= 'z' }

  predicate IsUpperAlpha(c: char) { 'A' <= c <= 'Z' }

  /** Regex `\w`, restricted to ASCII. */
  predicate IsWordChar(c: char) { IsLowerAlpha(c) || IsUpperAlpha(c) || IsDigit(c) || c == '_' }

  /** Regex `\s` and `str.isspace`, restricted to ASCII: the space, the
      control characters tab to carriage return, and the four information
      separators U+001C to U+001F. */
  predicate IsSpace(c: char) {
    c == ' ' || '\t' <= c <= '\r' || '\U{1C}' <= c <= '\U{1F}'
  }

  predicate AllWordChars(w: string) { forall i :: 0 <= i < |w| ==> IsWordChar(w[i]) }

  predicate AllDigits(w: string) { forall i :: 0 <= i < |w| ==> IsDigit(w[i]) }

  predicate AllSpace(w: string) { forall i :: 0 <= i < |w| ==> IsSpace(w[i]) }

  function LowerChar(c: char): char {
    if IsUpperAlpha(c) then (c as int + 32) as char else c
  }

  function UpperChar(c: char): char {
    if IsLowerAlpha(c) then (c as int - 32) as char else c
  }

  /** `str.lower()` */
  function Lower(s: string): (r: string)
    ensures |r| == |s|
    ensures forall i :: 0 <= i < |s| ==> r[i] == LowerChar(s[i])
  {
    seq(|s|, i requires 0 <= i < |s| => LowerChar(s[i]))
  }

  /** `str.upper()` */
  function Upper(s: string): (r: string)
    ensures |r| == |s|
    ensures forall i :: 0 <= i < |s| ==> r[i] == UpperChar(s[i])
  {
    seq(|s|, i requires 0 <= i < |s| => UpperChar(s[i]))
  }

  // ---------------------------------------------------------------------------
  // Substrings

  /** Python's `needle in hay` on strings. */
  predicate Contains(hay: string, needle: string)
    decreases |hay|
  {
    needle <= hay || (|hay| > 0 && Contains(hay[1..], needle))
  }

  /** `needle` occurs in `hay` starting at index `i`. */
  predicate OccursAt(hay: string, needle: string, i: int) {
    0 <= i && i + |needle| <= |hay| && hay[i..i + |needle|] == needle
  }

  /** The occurrence characterisation of `Contains`. */
  lemma ContainsIffOccurs(hay: string, needle: string)
    ensures Contains(hay, needle) <==> exists i :: OccursAt(hay, needle, i)
  {
    if Contains(hay, needle) {
      var i := ContainsOccurs(hay, needle);
    }
    if exists i :: OccursAt(hay, needle, i) {
      var i :| OccursAt(hay, needle, i);
      OccursContains(hay, needle, i);
    }
  }

  /** Where a contained string occurs. */
  lemma {:induction false} ContainsOccurs(hay: string, needle: string) returns (i: nat)
    requires Contains(hay, needle)
    ensures OccursAt(hay, needle, i)
    decreases |hay|
  {
    if needle <= hay {
      assert hay[0..|needle|] == needle;
      i := 0;
    } else {
      var j := ContainsOccurs(hay[1..], needle);
      assert hay[j + 1..j + 1 + |needle|] == hay[1..][j..j + |needle|];
      i := j + 1;
    }
  }

  lemma {:induction false} OccursContains(hay: string, needle: string, i: nat)
    requires OccursAt(hay, needle, i)
    ensures Contains(hay, needle)
    decreases i
  {
    if i == 0 {
      assert needle == hay[..|needle|];
    } else {
      assert hay[1..][i - 1..i - 1 + |needle|] == hay[i..i + |needle|];
      OccursContains(hay[1..], needle, i - 1);
    }
  }

  /** A string contains any of its own slices. */
  lemma ContainsSlice(hay: string, i: nat, j: nat)
    requires i <= j <= |hay|
    ensures Contains(hay, hay[i..j])
  {
    ContainsIffOccurs(hay, hay[i..j]);
    assert OccursAt(hay, hay[i..j], i);
  }

  /** A substring of `b` is a substring of `a + b`. */
  lemma ContainsInSuffix(a: string, b: string, x: string)
    requires Contains(b, x)
    ensures Contains(a + b, x)
  {
    ContainsIffOccurs(b, x);
    var k :| OccursAt(b, x, k);
    assert (a + b)[|a| + k..|a| + k + |x|] == b[k..k + |x|];
    ContainsSlice(a + b, |a| + k, |a| + k + |x|);
  }

  // ---------------------------------------------------------------------------
  // str.join and str.split

  /** `sep.join(parts)` */
  function Join(sep: string, parts: seq<string>): string
    decreases |parts|
  {
    if |parts| == 0 then ""
    else if |parts| == 1 then parts[0]
    else parts[0] + sep + Join(sep, parts[1..])
  }

  lemma {:induction false} JoinConcat(sep: string, a: seq<string>, b: seq<string>)
    requires |a| > 0 && |b| > 0
    ensures Join(sep, a + b) == Join(sep, a) + sep + Join(sep, b)
    decreases |a|
  {
    if |a| == 1 {
      assert (a + b)[1..] == b;
    } else {
      JoinConcat(sep, a[1..], b);
      assert (a + b)[1..] == a[1..] + b;
    }
  }

  lemma JoinSnoc(sep: string, a: seq<string>, x: string)
    requires |a| > 0
    ensures Join(sep, a + [x]) == Join(sep, a) + sep + x
  {
    JoinConcat(sep, a, [x]);
  }

  /** Every part occurs in the joined string. */
  lemma {:induction false} JoinContainsPart(sep: string, parts: seq<string>, k: nat)
    requires k < |parts|
    ensures Contains(Join(sep, parts), parts[k])
    decreases |parts|
  {
    var j := Join(sep, parts);
    if |parts| == 1 {
      assert parts[k] <= j;
    } else {
      var rest := Join(sep, parts[1..]);
      assert j == parts[0] + sep + rest;
      if k == 0 {
        assert parts[0] <= j;
      } else {
        JoinContainsPart(sep, parts[1..], k - 1);
        assert parts[1..][k - 1] == parts[k];
        ContainsInSuffix(parts[0] + sep, rest, parts[k]);
      }
    }
  }

  /** `s.split(c)` for a one-character separator. */
  function Split(s: string, c: char): (r: seq<string>)
    ensures |r| >= 1
    ensures forall i :: 0 <= i < |r| ==> c !in r[i]
    decreases |s|
  {
    if |s| == 0 then [""]
    else
      var rest := Split(s[1..], c);
      if s[0] == c then [""] + rest
      else [[s[0]] + rest[0]] + rest[1..]
  }

  /** Joining the pieces of a split with the separator gives the string back. */
  lemma {:induction false} JoinSplit(s: string, c: char)
    ensures Join([c], Split(s, c)) == s
    decreases |s|
  {
    if |s| > 0 {
      JoinSplit(s[1..], c);
      var rest := Split(s[1..], c);
      if s[0] == c {
        assert Split(s, c) == [""] + rest;
        if |rest| == 1 {
          assert Join([c], [""] + rest) == "" + [c] + rest[0];
        } else {
          assert ([""] + rest)[1..] == rest;
        }
      } else {
        var r := Split(s, c);
        assert r == [[s[0]] + rest[0]] + rest[1..];
        if |rest| == 1 {
          assert Join([c], r) == [s[0]] + rest[0];
        } else {
          assert r[1..] == rest[1..];
          assert Join([c], rest) == rest[0] + [c] + Join([c], rest[1..]);
        }
      }
    }
  }

  lemma {:induction false} SplitNoSep(x: string, c: char)
    requires c !in x
    ensures Split(x, c) == [x]
    decreases |x|
  {
    if |x| > 0 {
      assert c !in x[1..] by { assert forall i :: 0 <= i < |x[1..]| ==> x[1..][i] == x[i + 1]; }
      SplitNoSep(x[1..], c);
      assert [x[0]] + x[1..] == x;
    }
  }

  lemma {:induction false} SplitPrefix(x: string, c: char, y: string)
    requires c !in x
    ensures Split(x + [c] + y, c) == [x] + Split(y, c)
    decreases |x|
  {
    if |x| == 0 {
      assert x + [c] + y == [c] + y;
      assert ([c] + y)[1..] == y;
    } else {
      assert c !in x[1..] by { assert forall i :: 0 <= i < |x[1..]| ==> x[1..][i] == x[i + 1]; }
      SplitPrefix(x[1..], c, y);
      assert (x + [c] + y)[1..] == x[1..] + [c] + y;
      assert [x[0]] + x[1..] == x;
    }
  }

  /** Splitting a joined list of separator-free lines gives the lines back. */
  lemma {:induction false} SplitJoin(parts: seq<string>, c: char)
    requires |parts| >= 1
    requires forall i :: 0 <= i < |parts| ==> c !in parts[i]
    ensures Split(Join([c], parts), c) == parts
    decreases |parts|
  {
    if |parts| == 1 {
      SplitNoSep(parts[0], c);
    } else {
      SplitJoin(parts[1..], c);
      SplitPrefix(parts[0], c, Join([c], parts[1..]));
      assert [parts[0]] + parts[1..] == parts;
    }
  }

  // ---------------------------------------------------------------------------
  // str.strip

  function TrimLeft(s: string): (r: string)
    ensures |r| <= |s| && r == s[|s| - |r|..]
    ensures |r| == 0 || !IsSpace(r[0])
    ensures AllSpace(s[..|s| - |r|])
  {
    var n := SpaceRun(s);
    assert forall i :: 0 <= i < n ==> s[..n][i] == s[i];
    s[n..]
  }

  function TrimRight(s: string): (r: string)
    ensures |r| <= |s| && r == s[..|r|]
    ensures |r| == 0 || !IsSpace(r[|r| - 1])
    ensures AllSpace(s[|r|..])
    decreases |s|
  {
    if |s| > 0 && IsSpace(s[|s| - 1]) then TrimRight(s[..|s| - 1]) else s
  }

  predicate IsStripped(s: string) {
    |s| == 0 || (!IsSpace(s[0]) && !IsSpace(s[|s| - 1]))
  }

  /** `str.strip()`: the string with leading and trailing whitespace removed. */
  function Strip(s: string): (r: string)
    ensures IsStripped(r)
    ensures |r| <= |s|
    ensures r == "" <==> AllSpace(s)
    ensures IsStripped(s) ==> r == s
    ensures exists a :: 0 <= a <= |s| - |r| && r == s[a..a + |r|] && AllSpace(s[..a]) && AllSpace(s[a + |r|..])
  {
    StripFacts(s);
    var l := TrimLeft(s);
    var r := TrimRight(l);
    var a := |s| - |l|;
    assert r == s[a..a + |r|];
    assert AllSpace(s[a + |r|..]) by {
      assert s[a + |r|..] == l[|r|..];
    }
    r
  }

  lemma StripFacts(s: string)
    ensures var r := TrimRight(TrimLeft(s)); r == "" <==> AllSpace(s)
  {
    if TrimRight(TrimLeft(s)) == "" {
      assert s[..|s|] == s;
    }
  }

  /** Length of the run of whitespace at the start of `s`. */
  function SpaceRun(s: string): (n: nat)
    ensures n <= |s|
    ensures forall i :: 0 <= i < n ==> IsSpace(s[i])
    ensures n == |s| || !IsSpace(s[n])
    decreases |s|
  {
    if |s| > 0 && IsSpace(s[0]) then
      var n := 1 + SpaceRun(s[1..]);
      assert forall i :: 1 <= i < n ==> s[i] == s[1..][i - 1];
      n
    else 0
  }

  // ---------------------------------------------------------------------------
  // Word scanning: regex findall of `\b\w+\b`, i.e. the maximal runs of word
  // characters, in order.

  function WordRun(s: string): (n: nat)
    ensures n <= |s|
    ensures AllWordChars(s[..n])
    ensures n == |s| || !IsWordChar(s[n])
    decreases |s|
  {
    if |s| > 0 && IsWordChar(s[0]) then
      var n := 1 + WordRun(s[1..]);
      assert forall i :: 1 <= i < n ==> s[..n][i] == s[1..][..n - 1][i - 1];
      n
    else 0
  }

  function Words(s: string): (r: seq<string>)
    ensures forall i :: 0 <= i < |r| ==> |r[i]| > 0 && AllWordChars(r[i])
    decreases |s|
  {
    if |s| == 0 then []
    else if !IsWordChar(s[0]) then Words(s[1..])
    else
      var n := WordRun(s);
      [s[..n]] + Words(s[n..])
  }

  // ---------------------------------------------------------------------------
  // Citation markers: regex `\[(\d+)\]`

  function DigitRun(s: string): (n: nat)
    ensures n <= |s|
    ensures AllDigits(s[..n])
    ensures n == |s| || !IsDigit(s[n])
    decreases |s|
  {
    if |s| > 0 && IsDigit(s[0]) then
      var n := 1 + DigitRun(s[1..]);
      assert forall i :: 1 <= i < n ==> s[..n][i] == s[1..][..n - 1][i - 1];
      n
    else 0
  }

  /** Length of a `[digits]` marker at the start of `s`; 0 when there is none. */
  function MarkerLen(s: string): (n: nat)
    ensures n == 0 || (3 <= n <= |s| && s[0] == '[' && s[n - 1] == ']' && AllDigits(s[1..n - 1]))
  {
    if |s| > 0 && s[0] == '[' then
      var d := DigitRun(s[1..]);
      if d > 0 && d + 1 < |s| && s[d + 1] == ']' then
        assert s[1..d + 1] == s[1..][..d];
        d + 2
      else 0
    else 0
  }

  /** `re.findall(r'\[(\d+)\]', s)`: the digit strings of the markers, in order. */
  function FindMarkers(s: string): (r: seq<string>)
    ensures forall i :: 0 <= i < |r| ==> |r[i]| > 0 && AllDigits(r[i])
    decreases |s|
  {
    if |s| == 0 then []
    else
      var m := MarkerLen(s);
      if m > 0 then [s[1..m - 1]] + FindMarkers(s[m..]) else FindMarkers(s[1..])
  }

  /** The characters the markers with these digit strings occupy: the
      digits and the two brackets of each. */
  function MarkersLength(ds: seq<string>): nat
    decreases |ds|
  {
    if |ds| == 0 then 0 else |ds[0]| + 2 + MarkersLength(ds[1..])
  }

  /** `re.sub(r'\[\d+\]', '', s)`: the result is shorter by exactly the
      characters of the markers `findall` sees. */
  function StripMarkers(s: string): (r: string)
    ensures |r| <= |s|
    ensures |s| - |r| == MarkersLength(FindMarkers(s))
    ensures FindMarkers(s) == [] ==> r == s
    decreases |s|
  {
    if |s| == 0 then ""
    else
      var m := MarkerLen(s);
      if m > 0 then StripMarkers(s[m..]) else [s[0]] + StripMarkers(s[1..])
  }

  // ---------------------------------------------------------------------------
  // Decimal numbers

  function DigitChar(d: nat): (c: char)
    requires d < 10
    ensures IsDigit(c)
  {
    ('0' as int + d) as char
  }

  function DigitValue(c: char): nat
    requires IsDigit(c)
  {
    c as int - '0' as int
  }

  /** `str(n)` for a natural number. */
  function NatToString(n: nat): (r: string)
    ensures |r| > 0 && AllDigits(r)
    decreases n
  {
    if n < 10 then [DigitChar(n)]
    else
      var r := NatToString(n / 10) + [DigitChar(n % 10)];
      r
  }

  /** `str(i)` for any integer. */
  function IntToString(i: int): string {
    if i < 0 then "-" + NatToString(-i) else NatToString(i)
  }

  /** `int(s)` for a string of decimal digits. */
  function ParseNat(s: string): nat
    requires AllDigits(s)
    decreases |s|
  {
    if |s| == 0 then 0
    else ParseNat(s[..|s| - 1]) * 10 + DigitValue(s[|s| - 1])
  }

  /** Decimal formatting and parsing are inverse. */
  lemma {:induction false} ParseNatToString(n: nat)
    ensures ParseNat(NatToString(n)) == n
    decreases n
  {
    if n >= 10 {
      ParseNatToString(n / 10);
      var r := NatToString(n);
      assert r[..|r| - 1] == NatToString(n / 10);
    }
  }

  // ---------------------------------------------------------------------------
  // Python slicing

  /** A slice bound as Python normalises it: negative bounds count from the
      end, and the result is clamped to `[0, len]`. */
  function PyBound(k: int, len: nat): (b: nat)
    ensures b <= len
  {
    if k < 0 then (if k + len < 0 then 0 else k + len)
    else if k > len then len else k
  }

  /** `s[lo:hi]` */
  function PySlice<T>(s: seq<T>, lo: int, hi: int): (r: seq<T>)
    ensures |r| <= |s|
    ensures 0 <= lo <= hi <= |s| ==> r == s[lo..hi]
  {
    var a := PyBound(lo, |s|);
    var b := PyBound(hi, |s|);
    if a >= b then [] else s[a..b]
  }

  /** `s[:k]` */
  function PyTake<T>(s: seq<T>, k: int): (r: seq<T>)
    ensures |r| <= |s|
    ensures 0 <= k ==> r == s[..if k < |s| then k else |s|]
    ensures r == s[..|r|]
  {
    PySlice(s, 0, k)
  }

  /** `s.rfind(c)`: the last index of `c`, or -1. */
  function LastIndexOf(s: string, c: char): (r: int)
    ensures -1 <= r < |s|
    ensures r >= 0 ==> s[r] == c
    ensures forall i :: r < i < |s| ==> s[i] != c
    decreases |s|
  {
    if |s| == 0 then -1
    else if s[|s| - 1] == c then |s| - 1
    else LastIndexOf(s[..|s| - 1], c)
  }

  // ---------------------------------------------------------------------------
  // Order-preserving filtering

  /** `a` is `b` with some elements left out, order kept. */
  predicate IsSubseq<T(==)>(a: seq<T>, b: seq<T>)
    decreases |b|
  {
    |a| == 0 || (|b| > 0 && ((a[0] == b[0] && IsSubseq(a[1..], b[1..])) || IsSubseq(a, b[1..])))
  }

  lemma {:induction false} SubseqMembers<T>(a: seq<T>, b: seq<T>)
    requires IsSubseq(a, b)
    ensures forall x :: x in a ==> x in b
    decreases |b|
  {
    if |a| > 0 {
      if a[0] == b[0] && IsSubseq(a[1..], b[1..]) {
        SubseqMembers(a[1..], b[1..]);
        assert forall x :: x in a ==> x == a[0] || x in a[1..];
      } else {
        SubseqMembers(a, b[1..]);
      }
    }
  }

  /** A non-empty sequence is its prefix followed by its last element. */
  lemma ButLast<T>(s: seq<T>)
    requires |s| > 0
    ensures s == s[..|s| - 1] + [s[|s| - 1]]
  {
  }

  /** `zip(a, b)`: the pairs up to the shorter length. */
  function Zip<A, B>(a: seq<A>, b: seq<B>): (r: seq<(A, B)>)
    ensures |r| <= |a| && |r| <= |b| && (|r| == |a| || |r| == |b|)
    ensures forall i :: 0 <= i < |r| ==> r[i] == (a[i], b[i])
  {
    var n := if |a| <= |b| then |a| else |b|;
    seq(n, i requires 0 <= i < n => (a[i], b[i]))
  }

  /** `[x for x in s if p(x)]` */
  function Filter<T>(p: T -> bool, s: seq<T>): (r: seq<T>)
    ensures |r| <= |s|
    ensures forall i :: 0 <= i < |r| ==> p(r[i])
    decreases |s|
  {
    if |s| == 0 then []
    else if p(s[0]) then [s[0]] + Filter(p, s[1..])
    else Filter(p, s[1..])
  }

  /** The filter keeps exactly the elements that pass, in order and with
      their multiplicities. */
  lemma {:induction false} FilterExact<T>(p: T -> bool, s: seq<T>)
    ensures IsSubseq(Filter(p, s), s)
    ensures forall x :: x in s && p(x) ==> multiset(Filter(p, s))[x] == multiset(s)[x]
    ensures forall x :: x in s && !p(x) ==> x !in Filter(p, s)
    decreases |s|
  {
    if |s| > 0 {
      FilterExact(p, s[1..]);
      var rest := Filter(p, s[1..]);
      assert s == [s[0]] + s[1..];
      SubseqMembers(rest, s[1..]);
      if p(s[0]) {
        assert ([s[0]] + rest)[1..] == rest;
      }
    }
  }

  lemma {:induction false} FilterNone<T>(p: T -> bool, s: seq<T>)
    requires forall i :: 0 <= i < |s| ==> !p(s[i])
    ensures Filter(p, s) == []
    decreases |s|
  {
    if |s| > 0 {
      FilterNone(p, s[1..]);
    }
  }

  lemma {:induction false} FilterAll<T>(p: T -> bool, s: seq<T>)
    requires forall i :: 0 <= i < |s| ==> p(s[i])
    ensures Filter(p, s) == s
    decreases |s|
  {
    if |s| > 0 {
      FilterAll(p, s[1..]);
      assert s == [s[0]] + s[1..];
    }
  }
}
