/** The few Java string operations the catalogue code relies on: decimal
    formatting of integers, `String.trim`, joining, and `String.split` on a
    character class. */
module Text {

  /** Decimal digit characters. */
  predicate IsDigit(c: char) {
    '0' <= c <= '9'
  }

  function DigitChar(d: nat): (c: char)
    requires d < 10
    ensures IsDigit(c)
  {
    ('0' as int + d) as char
  }

  function DigitValue(c: char): (d: nat)
    requires IsDigit(c)
    ensures d < 10 && DigitChar(d) == c
  {
    (c as int - '0' as int) as nat
  }

  /** Numeric value of a string of decimal digits (most significant first). */
  function DecimalValue(s: string): nat
    requires forall i :: 0 <= i < |s| ==> IsDigit(s[i])
  {
    if s == [] then 0 else 10 * DecimalValue(s[..|s| - 1]) + DigitValue(s[|s| - 1])
  }

  /** `Integer.toString` for a non-negative value: shortest decimal digit string. */
  function DecimalString(n: nat): (s: string)
    ensures |s| >= 1
    ensures forall i :: 0 <= i < |s| ==> IsDigit(s[i])
    ensures |s| > 1 ==> s[0] != '0'
  {
    if n < 10 then [DigitChar(n)] else DecimalString(n / 10) + [DigitChar(n % 10)]
  }

  /** Reading the digits back yields the number that was printed. */
  lemma {:induction false} DecimalRoundTrip(n: nat)
    ensures DecimalValue(DecimalString(n)) == n
  {
    var s := DecimalString(n);
    if n >= 10 {
      DecimalRoundTrip(n / 10);
      assert s[..|s| - 1] == DecimalString(n / 10);
      assert DigitValue(s[|s| - 1]) == n % 10;
    }
  }

  /** Printing is injective: different counts never print alike. */
  lemma DecimalStringInjective(m: nat, n: nat)
    requires DecimalString(m) == DecimalString(n)
    ensures m == n
  {
    DecimalRoundTrip(m);
    DecimalRoundTrip(n);
  }

  /** `Integer.toString` / string concatenation of an `int`. */
  function IntString(i: int): (s: string)
    ensures i >= 0 ==> s == DecimalString(i)
    ensures i < 0 ==> s == "-" + DecimalString(-i)
  {
    if i >= 0 then DecimalString(i) else "-" + DecimalString(-i)
  }

  /** Characters `String.trim` removes: every code point up to and including the space. */
  predicate IsTrimmed(c: char) {
    c <= ' '
  }

  predicate AllTrimmed(s: string) {
    forall i :: 0 <= i < |s| ==> IsTrimmed(s[i])
  }

  /** Number of leading characters `String.trim` removes. */
  function LeadingCut(s: string): (n: nat)
    ensures n <= |s|
    ensures AllTrimmed(s[..n])
    ensures n < |s| ==> !IsTrimmed(s[n])
  {
    if s == [] || !IsTrimmed(s[0]) then 0
    else
      var k := LeadingCut(s[1..]);
      assert s[..k + 1] == [s[0]] + s[1..][..k];
      k + 1
  }

  /** Length of `s` once trailing trimmable characters are removed. */
  function TrailingEnd(s: string): (n: nat)
    ensures n <= |s|
    ensures AllTrimmed(s[n..])
    ensures n > 0 ==> !IsTrimmed(s[n - 1])
  {
    if s == [] || !IsTrimmed(s[|s| - 1]) then |s|
    else
      var k := TrailingEnd(s[..|s| - 1]);
      assert s[k..] == s[..|s| - 1][k..] + [s[|s| - 1]];
      k
  }

  /** `s` with its leading trimmable characters removed. */
  function TrimStart(s: string): (r: string)
    ensures r == s[LeadingCut(s)..]
    ensures r == [] || !IsTrimmed(r[0])
  {
    s[LeadingCut(s)..]
  }

  /** `String.trim`: the longest infix that neither starts nor ends with a trimmable
      character, everything cut away on either side being trimmable. */
  function Trim(s: string): (r: string)
    ensures r == [] || (!IsTrimmed(r[0]) && !IsTrimmed(r[|r| - 1]))
    ensures exists i :: 0 <= i <= |s| - |r| && s[i..i + |r|] == r && AllTrimmed(s[..i]) && AllTrimmed(s[i + |r|..])
  {
    var t := TrimStart(s);
    var e := TrailingEnd(t);
    var i := LeadingCut(s);
    assert s[i..][..e] == s[i..i + e];
    assert s[i + e..] == t[e..];
    t[..e]
  }

  /** A text that already starts and ends with a kept character is its own trim. */
  lemma TrimOfTrimmed(s: string)
    requires s == [] || (!IsTrimmed(s[0]) && !IsTrimmed(s[|s| - 1]))
    ensures Trim(s) == s
  {
  }

  /** Trimming text that ends in a fixed tail keeps the whole tail: only the head is
      trimmed (at its start), so an annotation appended to free-form notes always
      survives `trim`. */
  lemma TrimKeepsTail(head: string, tail: string)
    requires tail != [] && !IsTrimmed(tail[0]) && !IsTrimmed(tail[|tail| - 1])
    ensures Trim(head + tail) == TrimStart(head) + tail
  {
    var s := head + tail;
    var n := LeadingCut(head);
    LeadingCutOfConcat(head, tail);
    assert TrimStart(s) == TrimStart(head) + tail;
  }

  lemma {:induction false} LeadingCutOfConcat(head: string, tail: string)
    requires tail != [] && !IsTrimmed(tail[0])
    ensures LeadingCut(head + tail) == LeadingCut(head)
  {
    if head != [] && IsTrimmed(head[0]) {
      assert (head + tail)[1..] == head[1..] + tail;
      LeadingCutOfConcat(head[1..], tail);
    }
  }

  /** `xs` joined with `sep` between consecutive elements (the fold `TLTestResult.getTestSuite`
      builds with `s + sep + suite`). */
  function JoinWith(xs: seq<string>, sep: string): string
    requires xs != []
  {
    if |xs| == 1 then xs[0] else xs[0] + sep + JoinWith(xs[1..], sep)
  }

  /** Path separators of `split("[/\\\\]")`. */
  predicate IsPathSep(c: char) {
    c == '/' || c == '\\'
  }

  predicate NoPathSep(s: string) {
    forall i :: 0 <= i < |s| ==> !IsPathSep(s[i])
  }

  function CountSeps(s: string): nat {
    if s == [] then 0 else (if IsPathSep(s[0]) then 1 else 0) + CountSeps(s[1..])
  }

  /** Every piece between separators, empty pieces included (Java `split` with a
      negative limit). */
  function SplitAll(s: string): (r: seq<string>)
    ensures |r| == CountSeps(s) + 1
    ensures forall i :: 0 <= i < |r| ==> NoPathSep(r[i])
    ensures NoPathSep(s) ==> r == [s]
  {
    if s == [] then [""]
    else
      var rest := SplitAll(s[1..]);
      assert [s[0]] + s[1..] == s;
      assert NoPathSep(s) ==> NoPathSep(s[1..]);
      if IsPathSep(s[0]) then [""] + rest
      else [[s[0]] + rest[0]] + rest[1..]
  }

  /** Drops empty strings at the end of the list. */
  function DropTrailingEmpty(xs: seq<string>): (r: seq<string>)
    ensures r <= xs
    ensures r == [] || r[|r| - 1] != ""
    ensures forall i :: |r| <= i < |xs| ==> xs[i] == ""
  {
    if xs == [] || xs[|xs| - 1] != "" then xs
    else DropTrailingEmpty(xs[..|xs| - 1])
  }

  /** Java `s.split("[/\\\\]")`: with no separator the result is `[s]` (even for the
      empty string); otherwise trailing empty pieces are dropped, leading and inner
      empty pieces are kept. */
  function SplitPath(s: string): (r: seq<string>)
    ensures forall i :: 0 <= i < |r| ==> NoPathSep(r[i])
    ensures NoPathSep(s) ==> r == [s]
  {
    var parts := SplitAll(s);
    if |parts| == 1 then parts else DropTrailingEmpty(parts)
  }

  lemma {:induction false} CountSepsZero(s: string)
    ensures CountSeps(s) == 0 <==> NoPathSep(s)
  {
    if s != [] {
      CountSepsZero(s[1..]);
      assert forall i :: 1 <= i < |s| ==> s[i] == s[1..][i - 1];
    }
  }

  /** Splitting a separator-free piece followed by a separator and more text. */
  lemma {:induction false} SplitAllConcat(x: string, sep: char, rest: string)
    requires NoPathSep(x) && IsPathSep(sep)
    ensures SplitAll(x + [sep] + rest) == [x] + SplitAll(rest)
  {
    if x == [] {
      assert x + [sep] + rest == [sep] + rest;
      assert ([sep] + rest)[1..] == rest;
    } else {
      assert (x + [sep] + rest)[1..] == x[1..] + [sep] + rest;
      SplitAllConcat(x[1..], sep, rest);
      assert [x[0]] + x[1..] == x;
    }
  }

  /** Splitting a `/`-joined list of separator-free names gives the names back. */
  lemma {:induction false} SplitAllJoin(xs: seq<string>)
    requires xs != []
    requires forall i :: 0 <= i < |xs| ==> NoPathSep(xs[i])
    ensures SplitAll(JoinWith(xs, "/")) == xs
  {
    if |xs| == 1 {
    } else {
      SplitAllJoin(xs[1..]);
      assert xs[0] + "/" + JoinWith(xs[1..], "/") == xs[0] + ['/'] + JoinWith(xs[1..], "/");
      SplitAllConcat(xs[0], '/', JoinWith(xs[1..], "/"));
      assert [xs[0]] + xs[1..] == xs;
    }
  }

  /** Round trip of the path split: a path written as `/`-separated names, none of
      them containing a separator and the last one non-empty, splits back into
      exactly those names. */
  lemma SplitPathJoin(xs: seq<string>)
    requires xs != [] && xs[|xs| - 1] != ""
    requires forall i :: 0 <= i < |xs| ==> NoPathSep(xs[i])
    ensures SplitPath(JoinWith(xs, "/")) == xs
  {
    SplitAllJoin(xs);
  }

  /** Java's rules on small inputs: inner empty pieces stay and trailing ones go. */
  lemma SplitPathKeepsInnerEmpty()
    ensures SplitPath("a//b/") == ["a", "", "b"]
  {
    var parts := ["a", "", "b", ""];
    SplitAllInner();
    assert parts[..3] == ["a", "", "b"];
    assert DropTrailingEmpty(parts) == DropTrailingEmpty(parts[..3]);
  }

  lemma SplitAllInner()
    ensures SplitAll("a//b/") == ["a", "", "b", ""]
  {
    SplitAllTail();
    SplitAllConcat("a", '/', "/b/");
    assert "a" + ['/'] + "/b/" == "a//b/";
  }

  lemma SplitAllTail()
    ensures SplitAll("/b/") == ["", "b", ""]
  {
    SplitAllConcat("b", '/', "");
    assert "b" + ['/'] + "" == "b/";
    SplitAllConcat("", '/', "b/");
    assert "" + ['/'] + "b/" == "/b/";
  }

  /** A leading separator gives a leading empty piece, and `\` separates too. */
  lemma SplitPathLeadingAndBackslash()
    ensures SplitPath("/a") == ["", "a"]
    ensures SplitPath("a\\b") == ["a", "b"]
  {
    SplitAllConcat("", '/', "a");
    assert "" + ['/'] + "a" == "/a";
    SplitAllConcat("a", '\\', "b");
    assert "a" + ['\\'] + "b" == "a\\b";
  }

  /** The empty text is one empty piece. */
  lemma SplitPathEmpty()
    ensures SplitPath("") == [""]
  {
  }
}
