/**
  The Python string built-ins that the table converter relies on, restated on
  `string` (a sequence of Unicode characters): `str.isspace`, `str.strip()`,
  `str.split(sep)` with a one-character separator, `sep.join(parts)`,
  `str(n)` for a natural number, and `c * k` for a one-character string.
 */
module Text {
  import opened Sequences

  /** Python's `str.isspace` for one character: the ASCII controls TAB..CR and
      0x1C..0x1F, space, and the Unicode space separators and line/paragraph
      separators (including the ideographic space U+3000). */
  predicate IsSpace(c: char) {
    c == ' ' || ('\t' <= c <= '\r') || ('\U{1C}' <= c <= '\U{1F}')
    || c == '\U{85}' || c == '\U{A0}' || c == '\U{1680}'
    || ('\U{2000}' <= c <= '\U{200A}')
    || c == '\U{2028}' || c == '\U{2029}' || c == '\U{202F}' || c == '\U{205F}'
    || c == '\U{3000}'
  }

  predicate AllSpace(s: string) {
    forall k :: 0 <= k < |s| ==> IsSpace(s[k])
  }

  /** `s.lstrip()`: `s` without its leading whitespace. */
  function TrimStart(s: string): (r: string)
    ensures |r| <= |s|
  {
    if s != [] && IsSpace(s[0]) then TrimStart(s[1..]) else s
  }

  /** What `lstrip` removes is whitespace, and what it keeps is a suffix that
      does not start with whitespace. */
  lemma {:induction false} TrimStartSpec(s: string)
    ensures var r := TrimStart(s);
      && r == s[|s| - |r|..]
      && AllSpace(s[..|s| - |r|])
      && (r == [] || !IsSpace(r[0]))
  {
    if s != [] && IsSpace(s[0]) {
      TrimStartSpec(s[1..]);
      var r := TrimStart(s[1..]);
      assert s[..|s| - |r|] == [s[0]] + s[1..][..|s| - 1 - |r|];
    }
  }

  /** `s.rstrip()`: `s` without its trailing whitespace. */
  function TrimEnd(s: string): (r: string)
    ensures |r| <= |s|
  {
    if s != [] && IsSpace(s[|s| - 1]) then TrimEnd(s[..|s| - 1]) else s
  }

  /** What `rstrip` removes is whitespace, and what it keeps is a prefix that
      does not end with whitespace. */
  lemma {:induction false} TrimEndSpec(s: string)
    ensures var r := TrimEnd(s);
      && r == s[..|r|]
      && AllSpace(s[|r|..])
      && (r == [] || !IsSpace(r[|r| - 1]))
  {
    if s != [] && IsSpace(s[|s| - 1]) {
      TrimEndSpec(s[..|s| - 1]);
      var r := TrimEnd(s[..|s| - 1]);
      assert s[|r|..] == s[..|s| - 1][|r|..] + [s[|s| - 1]];
    }
  }

  /** Python's `s.strip()`: `s` with its leading and trailing whitespace removed. */
  function Strip(s: string): (r: string)
    ensures |r| <= |s|
  {
    TrimEnd(TrimStart(s))
  }

  /** The stripped text is empty exactly when `s` is all whitespace (the
      test the parser makes on the stripped text). */
  lemma StripEmpty(s: string)
    ensures Strip(s) == [] <==> AllSpace(s)
  {
    var t := TrimStart(s);
    var r := TrimEnd(t);
    var i := |s| - |t|;
    TrimStartSpec(s);
    TrimEndSpec(t);
    if r == [] {
      assert t[|r|..] == t;
      assert t == [];
      assert s[..i] == s;
    }
  }

  /** The stripped text is the slice of `s` left between a whitespace prefix
      and a whitespace suffix, and when it is not empty it neither starts nor
      ends with whitespace. */
  lemma StripSpec(s: string)
    ensures var r := Strip(s);
      && (r == [] <==> AllSpace(s))
      && (r == [] || (!IsSpace(r[0]) && !IsSpace(r[|r| - 1])))
      && exists i :: 0 <= i <= |s| - |r| && r == s[i..i + |r|]
                     && AllSpace(s[..i]) && AllSpace(s[i + |r|..])
  {
    StripEmpty(s);
    StripEnds(s);
    StripSlice(s);
    var i := |s| - |TrimStart(s)|;
    assert 0 <= i <= |s| - |Strip(s)|;
  }

  /** The stripped text neither starts nor ends with whitespace. */
  lemma StripEnds(s: string)
    ensures var r := Strip(s);
      r == [] || (!IsSpace(r[0]) && !IsSpace(r[|r| - 1]))
  {
    var t := TrimStart(s);
    var r := TrimEnd(t);
    TrimStartSpec(s);
    TrimEndSpec(t);
    if r != [] {
      assert r[0] == t[0];
    }
  }

  /** The stripped text is the slice after the leading whitespace, and what
      lies on either side of it is whitespace. */
  lemma StripSlice(s: string)
    ensures var i := |s| - |TrimStart(s)|; var r := Strip(s);
      && i + |r| <= |s| && r == s[i..i + |r|]
      && AllSpace(s[..i]) && AllSpace(s[i + |r|..])
  {
    var t := TrimStart(s);
    var r := TrimEnd(t);
    var i := |s| - |t|;
    TrimStartSpec(s);
    TrimEndSpec(t);
    SuffixSlices(s, i, |r|);
  }

  /** Python's `sep.join(parts)`. */
  function Join(sep: string, parts: seq<string>): string {
    if |parts| == 0 then ""
    else if |parts| == 1 then parts[0]
    else Join(sep, parts[..|parts| - 1]) + sep + parts[|parts| - 1]
  }

  lemma JoinSnoc(sep: string, parts: seq<string>, p: string)
    requires parts != []
    ensures Join(sep, parts + [p]) == Join(sep, parts) + sep + p
  {
    assert (parts + [p])[..|parts|] == parts;
  }

  /** A join ends with the last character of its last part. */
  lemma JoinLast(sep: string, parts: seq<string>)
    requires parts != [] && parts[|parts| - 1] != []
    ensures var j := Join(sep, parts);
      |j| > 0 && j[|j| - 1] == parts[|parts| - 1][|parts[|parts| - 1]| - 1]
  {
    if |parts| > 1 {
      LastOfAppend(Join(sep, parts[..|parts| - 1]) + sep, parts[|parts| - 1]);
    }
  }

  /** The number of occurrences of `c` in `s`. */
  function Occurrences(s: string, c: char): nat {
    if s == [] then 0
    else Occurrences(s[..|s| - 1], c) + (if s[|s| - 1] == c then 1 else 0)
  }

  /** Python's `s.split(sep)` for a one-character separator: the pieces of `s`
      between the separators, in order (`""` splits into `[""]`). */
  function Split(s: string, sep: char): (parts: seq<string>)
    ensures |parts| >= 1
  {
    if s == [] then [""]
    else
      var init := Split(s[..|s| - 1], sep);
      var c := s[|s| - 1];
      if c == sep then init + [""]
      else init[..|init| - 1] + [init[|init| - 1] + [c]]
  }

  /** There is one piece more than there are separators. */
  lemma {:induction false} SplitCount(s: string, sep: char)
    ensures |Split(s, sep)| == Occurrences(s, sep) + 1
  {
    if s != [] {
      SplitCount(s[..|s| - 1], sep);
    }
  }

  /** No piece contains the separator. */
  lemma {:induction false} SplitPieces(s: string, sep: char)
    ensures forall i :: 0 <= i < |Split(s, sep)| ==> sep !in Split(s, sep)[i]
  {
    if s != [] {
      var init := Split(s[..|s| - 1], sep);
      SplitPieces(s[..|s| - 1], sep);
      var c := s[|s| - 1];
      if c != sep {
        var m := |init|;
        var parts := init[..m - 1] + [init[m - 1] + [c]];
        assert forall i :: 0 <= i < m - 1 ==> parts[i] == init[i];
        assert sep !in init[m - 1];
        assert parts[m - 1] == init[m - 1] + [c];
      }
    }
  }

  /** Joining the pieces with the separator gives `s` back. */
  lemma {:induction false} SplitJoin(s: string, sep: char)
    ensures Join([sep], Split(s, sep)) == s
  {
    if s != [] {
      var init := Split(s[..|s| - 1], sep);
      SplitJoin(s[..|s| - 1], sep);
      var c := s[|s| - 1];
      assert s == s[..|s| - 1] + [c];
      if c == sep {
        JoinSnoc([sep], init, "");
      } else {
        var m := |init|;
        var parts := init[..m - 1] + [init[m - 1] + [c]];
        assert parts[..m - 1] == init[..m - 1];
      }
    }
  }

  /** `Split` is the inverse of joining with the separator: one piece more
      than there are separators, no piece contains the separator, and joining
      the pieces gives `s` back. */
  lemma SplitSpec(s: string, sep: char)
    ensures var parts := Split(s, sep);
      && |parts| == Occurrences(s, sep) + 1
      && (forall i :: 0 <= i < |parts| ==> sep !in parts[i])
      && Join([sep], parts) == s
  {
    SplitCount(s, sep);
    SplitPieces(s, sep);
    SplitJoin(s, sep);
  }

  /** The pieces with the last character of the last piece removed. */
  function ShortenLast(parts: seq<string>): (r: seq<string>)
    requires |parts| >= 1 && parts[|parts| - 1] != []
    ensures |r| == |parts|
  {
    var last := parts[|parts| - 1];
    parts[..|parts| - 1] + [last[..|last| - 1]]
  }

  /** Removing the last character of the joined text removes it from the last piece. */
  lemma ShortenLastJoin(s: string, sep: char, parts: seq<string>)
    requires |parts| >= 1 && parts[|parts| - 1] != []
    requires Join([sep], parts) == s
    ensures s != [] && Join([sep], ShortenLast(parts)) == s[..|s| - 1]
    ensures s[|s| - 1] == parts[|parts| - 1][|parts[|parts| - 1]| - 1]
  {
    var m := |parts|;
    var last := parts[m - 1];
    var parts' := ShortenLast(parts);
    assert last == last[..|last| - 1] + [last[|last| - 1]];
    assert parts'[..m - 1] == parts[..m - 1];
    if m == 1 {
      assert s == last;
    } else {
      assert s == Join([sep], parts[..m - 1]) + [sep] + last;
    }
  }

  /** The shortened pieces are still separator-free, and re-appending the
      character gives back the pieces. */
  lemma ShortenLastPieces(sep: char, parts: seq<string>)
    requires |parts| >= 1 && parts[|parts| - 1] != []
    requires forall i :: 0 <= i < |parts| ==> sep !in parts[i]
    ensures forall i :: 0 <= i < |ShortenLast(parts)| ==> sep !in ShortenLast(parts)[i]
    ensures var m := |parts|; var last := parts[m - 1];
      parts == ShortenLast(parts)[..m - 1] + [ShortenLast(parts)[m - 1] + [last[|last| - 1]]]
  {
    var m := |parts|;
    var last := parts[m - 1];
    var parts' := ShortenLast(parts);
    assert last == last[..|last| - 1] + [last[|last| - 1]];
    assert parts'[..m - 1] == parts[..m - 1];
    forall i | 0 <= i < |parts'| ensures sep !in parts'[i] {
      if i == m - 1 {
        assert forall x :: x in last[..|last| - 1] ==> x in last;
      } else {
        assert parts'[i] == parts[i];
      }
    }
  }

  /** Splitting is determined by its two defining properties: any sequence of
      separator-free pieces that joins back to `s` is `Split(s, sep)`. */
  lemma {:induction false} SplitUnique(s: string, sep: char, parts: seq<string>)
    requires |parts| >= 1
    requires forall i :: 0 <= i < |parts| ==> sep !in parts[i]
    requires Join([sep], parts) == s
    ensures parts == Split(s, sep)
    decreases |s|
  {
    var m := |parts|;
    var last := parts[m - 1];
    if s == [] {
    } else if last == [] {
      var init := parts[..m - 1];
      FrontLast(parts);
      assert m >= 2;
      JoinSnoc([sep], init, "");
      assert s == Join([sep], init) + [sep];
      assert s[..|s| - 1] == Join([sep], init);
      SplitUnique(s[..|s| - 1], sep, init);
      assert s[|s| - 1] == sep;
    } else {
      var parts' := ShortenLast(parts);
      ShortenLastJoin(s, sep, parts);
      ShortenLastPieces(sep, parts);
      SplitUnique(s[..|s| - 1], sep, parts');
      assert last[|last| - 1] != sep;
    }
  }

  /** Python's `c * k` for a one-character string `c` (empty when `k <= 0`). */
  function Repeat(c: char, k: nat): (r: string)
    ensures |r| == k && forall i :: 0 <= i < k ==> r[i] == c
  {
    seq(k, _ => c)
  }

  function Digit(d: nat): (c: char)
    requires d < 10
  {
    ['0', '1', '2', '3', '4', '5', '6', '7', '8', '9'][d]
  }

  function DigitValue(c: char): nat {
    if '0' <= c <= '9' then (c as int - '0' as int) as nat else 0
  }

  /** Python's `str(n)` for a natural number: its decimal digits, most
      significant first, without leading zeros. */
  function NatToString(n: nat): (s: string)
    ensures |s| >= 1 && forall k :: 0 <= k < |s| ==> '0' <= s[k] <= '9'
    ensures |s| > 1 ==> s[0] != '0'
  {
    if n < 10 then [Digit(n)] else NatToString(n / 10) + [Digit(n % 10)]
  }

  lemma DigitRoundTrip(d: nat)
    requires d < 10
    ensures DigitValue(Digit(d)) == d
  {
  }

  /** The number a string of decimal digits denotes. */
  function DecimalValue(s: string): nat {
    if s == [] then 0 else DecimalValue(s[..|s| - 1]) * 10 + DigitValue(s[|s| - 1])
  }

  /** Reading back a rendered number gives the number. */
  lemma {:induction false} NatToStringRoundTrip(n: nat)
    ensures DecimalValue(NatToString(n)) == n
  {
    if n < 10 {
      DigitRoundTrip(n);
    } else {
      var p := NatToString(n / 10);
      var s := p + [Digit(n % 10)];
      assert s[..|s| - 1] == p;
      NatToStringRoundTrip(n / 10);
      DigitRoundTrip(n % 10);
      assert DecimalValue(s) == (n / 10) * 10 + n % 10;
    }
  }

  /** The number of lines of `lines` that equal `x`. */
  function Count<T(==)>(lines: seq<T>, x: T): nat {
    if lines == [] then 0
    else Count(lines[..|lines| - 1], x) + (if lines[|lines| - 1] == x then 1 else 0)
  }

  lemma {:induction false} CountConcat<T>(a: seq<T>, b: seq<T>, x: T)
    ensures Count(a + b, x) == Count(a, x) + Count(b, x)
    decreases |b|
  {
    if b == [] {
      assert a + b == a;
    } else {
      var b' := b[..|b| - 1];
      assert (a + b)[..|a + b| - 1] == a + b';
      CountConcat(a, b', x);
    }
  }

  lemma CountFive<T>(a: seq<T>, b: seq<T>, c: seq<T>, d: seq<T>, e: seq<T>, x: T)
    ensures Count(a + b + c + d + e, x) == Count(a, x) + Count(b, x) + Count(c, x) + Count(d, x) + Count(e, x)
  {
    CountConcat(a, b, x);
    CountConcat(a + b, c, x);
    CountConcat(a + b + c, d, x);
    CountConcat(a + b + c + d, e, x);
  }

  /** A line count over a sequence none of whose lines is `x`. */
  lemma {:induction false} CountAbsent<T>(lines: seq<T>, x: T)
    requires forall i :: 0 <= i < |lines| ==> lines[i] != x
    ensures Count(lines, x) == 0
    decreases |lines|
  {
    if lines != [] {
      CountAbsent(lines[..|lines| - 1], x);
    }
  }

  /** Appending a block that holds `x` once adds one to the count. */
  lemma CountStep<T>(a: seq<T>, b: seq<T>, x: T, m: nat)
    requires Count(a, x) == m && Count(b, x) == 1
    ensures Count(a + b, x) == m + 1
  {
    CountConcat(a, b, x);
  }

  lemma CountSingle<T>(l: T, x: T)
    ensures Count([l], x) == if l == x then 1 else 0
  {
    assert [l][..0] == [];
  }
}
