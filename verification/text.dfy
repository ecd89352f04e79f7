/** String helpers shared by every stage of the extractor: whitespace trimming,
    JavaScript's `indexOf`, the test suite's `numberOfMatches`, joining lines
    into a document, and decimal rendering of line numbers. */
module Text {

  /** The whitespace that surrounds an argument of a call: blank, tab, line feed
      and carriage return. */
  predicate IsSpace(c: char) {
    c == ' ' || c == '\t' || c == '\n' || c == '\r'
  }

  predicate AllSpace(s: string) {
    forall k :: 0 <= k < |s| ==> IsSpace(s[k])
  }

  predicate NoChar(s: string, c: char) {
    forall k :: 0 <= k < |s| ==> s[k] != c
  }

  /** Concatenation regroups freely. */
  lemma AppendAssoc<T>(x: seq<T>, y: seq<T>, z: seq<T>)
    ensures x + (y + z) == (x + y) + z
  {
  }

  /** `c` occurs in `s`; named so that proofs do not unfold the quantifier. */
  predicate HasChar(s: string, c: char) {
    !NoChar(s, c)
  }

  /** Neither end of `s` is whitespace. */
  predicate Trimmed(s: string) {
    s == [] || (!IsSpace(s[0]) && !IsSpace(s[|s| - 1]))
  }

  lemma NoCharAppend(a: string, b: string, c: char)
    requires NoChar(a, c) && NoChar(b, c)
    ensures NoChar(a + b, c)
  {
    forall k | 0 <= k < |a + b|
      ensures (a + b)[k] != c
    {
      if k < |a| { assert (a + b)[k] == a[k]; } else { assert (a + b)[k] == b[k - |a|]; }
    }
  }

  // ---------------------------------------------------------------------------
  // Trimming

  function TrimStart(s: string): (r: string)
    ensures |r| <= |s|
  {
    if |s| > 0 && IsSpace(s[0]) then TrimStart(s[1..]) else s
  }

  function TrimEnd(s: string): (r: string)
    ensures |r| <= |s|
  {
    if |s| > 0 && IsSpace(s[|s| - 1]) then TrimEnd(s[..|s| - 1]) else s
  }

  /** `TrimStart` drops whitespace only, and all of it. */
  lemma {:induction false} TrimStartShape(s: string)
    ensures var r := TrimStart(s);
      r == s[|s| - |r|..] && AllSpace(s[..|s| - |r|]) && (r == [] || !IsSpace(r[0]))
  {
    if |s| > 0 && IsSpace(s[0]) {
      TrimStartShape(s[1..]);
      var r := TrimStart(s[1..]);
      assert s[..|s| - |r|] == [s[0]] + s[1..][..|s| - 1 - |r|];
    }
  }

  /** `TrimEnd` drops whitespace only, and all of it. */
  lemma {:induction false} TrimEndShape(s: string)
    ensures var r := TrimEnd(s);
      r == s[..|r|] && AllSpace(s[|r|..]) && (r == [] || !IsSpace(r[|r| - 1]))
  {
    if |s| > 0 && IsSpace(s[|s| - 1]) {
      TrimEndShape(s[..|s| - 1]);
      var r := TrimEnd(s[..|s| - 1]);
      assert s[|r|..] == s[..|s| - 1][|r|..] + [s[|s| - 1]];
    }
  }

  /** Removes the whitespace at both ends. */
  function Trim(s: string): (r: string)
    ensures Trimmed(r)
  {
    TrimStartShape(s);
    TrimEndShape(TrimStart(s));
    TrimEnd(TrimStart(s))
  }

  /** What `Trim` keeps is the piece of `s` that starts after the leading
      whitespace. */
  lemma TrimMiddle(s: string)
    ensures var i, r := |s| - |TrimStart(s)|, Trim(s);
      i + |r| <= |s| && r == s[i..i + |r|]
  {
    TrimStartShape(s);
    TrimEndShape(TrimStart(s));
    SliceOfSlice(s, |s| - |TrimStart(s)|, |Trim(s)|);
  }

  /** Only whitespace lies on either side of what `Trim` keeps. */
  lemma TrimSides(s: string)
    ensures var i, r := |s| - |TrimStart(s)|, Trim(s);
      i + |r| <= |s| && AllSpace(s[..i]) && AllSpace(s[i + |r|..])
  {
    TrimStartShape(s);
    TrimEndShape(TrimStart(s));
    SliceOfSlice(s, |s| - |TrimStart(s)|, |Trim(s)|);
  }

  lemma SliceOfSlice<T>(s: seq<T>, i: nat, n: nat)
    requires i + n <= |s|
    ensures s[i..][..n] == s[i..i + n] && s[i..][n..] == s[i + n..]
  {
  }

  lemma TrimStartExact(a: string, t: string)
    requires AllSpace(a)
    requires t == [] || !IsSpace(t[0])
    ensures TrimStart(a + t) == t
  {
    if a == [] {
      assert a + t == t;
    } else {
      assert (a + t)[1..] == a[1..] + t;
      TrimStartExact(a[1..], t);
    }
  }

  lemma TrimEndExact(t: string, b: string)
    requires AllSpace(b)
    requires t == [] || !IsSpace(t[|t| - 1])
    ensures TrimEnd(t + b) == t
  {
    if b == [] {
      assert t + b == t;
    } else {
      assert (t + b)[..|t + b| - 1] == t + b[..|b| - 1];
      TrimEndExact(t, b[..|b| - 1]);
    }
  }

  /** The converse of `Trim`'s contract: whatever whitespace surrounds a trimmed
      core, trimming recovers exactly that core. */
  lemma {:induction false} TrimExact(a: string, core: string, b: string)
    requires AllSpace(a) && AllSpace(b) && Trimmed(core)
    ensures Trim(a + core + b) == core
  {
    if core == [] {
      assert a + core + b == a + b;
      TrimStartExact(a + b, []);
      assert a + b + [] == a + b;
    } else {
      assert a + core + b == a + (core + b);
      TrimStartExact(a, core + b);
      TrimEndExact(core, b);
    }
  }

  // ---------------------------------------------------------------------------
  // Searching

  /** `needle` starts at position `i` of `hay`. */
  predicate OccursAt(hay: string, needle: string, i: int) {
    0 <= i && i + |needle| <= |hay| && hay[i..i + |needle|] == needle
  }

  ghost predicate Contains(hay: string, needle: string) {
    exists i :: OccursAt(hay, needle, i)
  }

  function IndexFrom(hay: string, needle: string, i: nat): (r: int)
    ensures r == -1 ==> forall j :: i <= j ==> !OccursAt(hay, needle, j)
    ensures r != -1 ==> i <= r && OccursAt(hay, needle, r)
                        && forall j :: i <= j < r ==> !OccursAt(hay, needle, j)
    decreases |hay| - i
  {
    if i + |needle| > |hay| then -1
    else if hay[i..i + |needle|] == needle then i
    else IndexFrom(hay, needle, i + 1)
  }

  /** JavaScript's `hay.indexOf(needle)`: the first position at which `needle`
      occurs, or -1 when it occurs nowhere. */
  function IndexOf(hay: string, needle: string): (r: int)
    ensures r == -1 <==> !Contains(hay, needle)
    ensures r != -1 ==> OccursAt(hay, needle, r) && forall j :: 0 <= j < r ==> !OccursAt(hay, needle, j)
  {
    IndexFrom(hay, needle, 0)
  }

  lemma ContainsMiddle(a: string, needle: string, b: string)
    ensures Contains(a + needle + b, needle)
  {
    assert (a + needle + b)[|a|..|a| + |needle|] == needle;
    assert OccursAt(a + needle + b, needle, |a|);
  }

  lemma ContainsWithin(hay: string, part: string, needle: string, i: nat)
    requires OccursAt(hay, part, i)
    requires Contains(part, needle)
    ensures Contains(hay, needle)
  {
    var j :| OccursAt(part, needle, j);
    forall k | 0 <= k < |needle|
      ensures hay[i + j + k] == needle[k]
    {
      assert part[j..j + |needle|][k] == needle[k];
      assert hay[i..i + |part|][j + k] == part[j + k];
    }
    assert hay[i + j..i + j + |needle|] == needle;
    assert OccursAt(hay, needle, i + j);
  }

  /** Containment is transitive. */
  lemma ContainsTrans(hay: string, part: string, needle: string)
    requires Contains(hay, part) && Contains(part, needle)
    ensures Contains(hay, needle)
  {
    var i :| OccursAt(hay, part, i);
    ContainsWithin(hay, part, needle, i);
  }

  /** The test suite's `numberOfMatches(needle, haystack)`: the number of
      non-overlapping occurrences found by a left-to-right global search. */
  function NumberOfMatches(needle: string, hay: string): (n: nat)
    requires |needle| > 0
    ensures n * |needle| <= |hay|
    decreases |hay|
  {
    if |hay| < |needle| then 0
    else if hay[..|needle|] == needle then 1 + NumberOfMatches(needle, hay[|needle|..])
    else NumberOfMatches(needle, hay[1..])
  }

  /** Occurrences before position `k` being absent, counting may start at `k`. */
  lemma {:induction false} MatchesSkip(needle: string, hay: string, k: nat)
    requires |needle| > 0 && k <= |hay|
    requires forall j :: 0 <= j < k ==> !OccursAt(hay, needle, j)
    ensures NumberOfMatches(needle, hay) == NumberOfMatches(needle, hay[k..])
  {
    if k > 0 {
      if |hay| < |needle| {
        assert |hay[k..]| < |needle|;
      } else {
        assert hay[..|needle|] == hay[0..0 + |needle|];
        assert !OccursAt(hay, needle, 0);
        forall j | 0 <= j < k - 1
          ensures !OccursAt(hay[1..], needle, j)
        {
          assert !OccursAt(hay, needle, j + 1);
          if j + |needle| <= |hay[1..]| {
            assert hay[1..][j..j + |needle|] == hay[j + 1..j + 1 + |needle|];
          }
        }
        MatchesSkip(needle, hay[1..], k - 1);
        assert hay[1..][k - 1..] == hay[k..];
      }
    }
  }

  lemma {:induction false} NoMatchesWhenAbsent(needle: string, hay: string)
    requires |needle| > 0
    requires !Contains(hay, needle)
    ensures NumberOfMatches(needle, hay) == 0
  {
    MatchesSkip(needle, hay, |hay|);
  }

  // ---------------------------------------------------------------------------
  // Documents made of lines

  /** Joins lines into a document, each line followed by a line feed. */
  function Unlines(lines: seq<string>): (doc: string)
    ensures |doc| >= |lines|
  {
    if |lines| == 0 then [] else lines[0] + "\n" + Unlines(lines[1..])
  }

  lemma UnlinesOne(line: string)
    ensures Unlines([line]) == line + "\n"
  {
    assert [line][1..] == [];
  }

  lemma UnlinesThree(x: string, y: string, z: string)
    ensures Unlines([x, y, z]) == x + "\n" + y + "\n" + z + "\n"
  {
    assert [x, y, z][1..] == [y, z];
    assert [y, z][1..] == [z];
    UnlinesOne(z);
  }

  lemma {:induction false} UnlinesAppend(a: seq<string>, b: seq<string>)
    ensures Unlines(a + b) == Unlines(a) + Unlines(b)
  {
    if a == [] {
      assert a + b == b;
    } else {
      assert (a + b)[1..] == a[1..] + b;
      UnlinesAppend(a[1..], b);
    }
  }

  /** A document contains every run of its consecutive lines. */
  lemma LinesContained(pre: seq<string>, mid: seq<string>, post: seq<string>)
    ensures Contains(Unlines(pre + mid + post), Unlines(mid))
  {
    UnlinesAppend(pre + mid, post);
    UnlinesAppend(pre, mid);
    ContainsMiddle(Unlines(pre), Unlines(mid), Unlines(post));
  }

  /** A document made of two runs of lines holds the text of each. */
  lemma LinesInTwo(a: seq<string>, b: seq<string>)
    ensures Contains(Unlines(a + b), Unlines(a)) && Contains(Unlines(a + b), Unlines(b))
  {
    assert a + b == [] + a + b;
    LinesContained([], a, b);
    assert a + b == a + b + [];
    LinesContained(a, b, []);
  }

  /** A sequence is what comes before position `k`, the element there, and what follows. */
  lemma PickOut<T>(xs: seq<T>, k: nat)
    requires k < |xs|
    ensures xs == xs[..k] + [xs[k]] + xs[k + 1..]
  {
  }

  /** A document holds each of its lines together with the line feed ending it. */
  lemma LineShown(lines: seq<string>, k: nat)
    requires k < |lines|
    ensures Contains(Unlines(lines), lines[k] + "\n")
  {
    var pre, mid, post := lines[..k], [lines[k]], lines[k + 1..];
    PickOut(lines, k);
    LinesContained(pre, mid, post);
    UnlinesOne(lines[k]);
  }

  /** Each part of a five-part list of lines appears in its document. */
  lemma LinesInFive(a: seq<string>, b: seq<string>, c: seq<string>, d: seq<string>, e: seq<string>)
    ensures var doc := Unlines(a + b + c + d + e);
            Contains(doc, Unlines(a)) && Contains(doc, Unlines(b)) && Contains(doc, Unlines(c))
            && Contains(doc, Unlines(d))
  {
    var all := a + b + c + d + e;
    assert all == [] + a + (b + c + d + e);
    LinesContained([], a, b + c + d + e);
    assert all == a + b + (c + d + e);
    LinesContained(a, b, c + d + e);
    assert all == (a + b) + c + (d + e);
    LinesContained(a + b, c, d + e);
    assert all == (a + b + c) + d + e;
    LinesContained(a + b + c, d, e);
  }

  /** A document contains whatever one of its lines contains. */
  lemma LineContained(lines: seq<string>, k: nat, needle: string)
    requires k < |lines| && Contains(lines[k], needle)
    ensures Contains(Unlines(lines), needle)
  {
    LineShown(lines, k);
    ContainsStart(lines[k], "\n", needle);
    ContainsTrans(Unlines(lines), lines[k] + "\n", needle);
  }

  /** What a text contains, the text followed by more contains too. */
  lemma ContainsStart(a: string, b: string, needle: string)
    requires Contains(a, needle)
    ensures Contains(a + b, needle)
  {
    assert (a + b)[0..|a|] == a;
    ContainsWithin(a + b, a, needle, 0);
  }

  lemma ContainsSplit(a: string, b: string, needle: string)
    requires NoChar(needle, '\n')
    requires Contains(a + "\n" + b, needle)
    ensures Contains(a, needle) || Contains(b, needle)
  {
    var h := a + "\n" + b;
    var i :| OccursAt(h, needle, i);
    assert forall p :: i <= p < i + |needle| ==> h[p] == needle[p - i];
    assert h[|a|] == '\n';
    if i + |needle| <= |a| {
      assert h[i..i + |needle|] == a[i..i + |needle|];
      assert OccursAt(a, needle, i);
    } else {
      assert i > |a|;
      assert h[i..i + |needle|] == b[i - |a| - 1..i - |a| - 1 + |needle|];
      assert OccursAt(b, needle, i - |a| - 1);
    }
  }

  /** A needle without line feeds lies inside a single line: if no line
      contains it, the document does not. */
  lemma {:induction false} NotContainedInLines(lines: seq<string>, needle: string)
    requires |needle| > 0 && NoChar(needle, '\n')
    requires forall k :: 0 <= k < |lines| ==> !Contains(lines[k], needle)
    ensures !Contains(Unlines(lines), needle)
  {
    if lines != [] {
      NotContainedInLines(lines[1..], needle);
      if Contains(Unlines(lines), needle) {
        ContainsSplit(lines[0], Unlines(lines[1..]), needle);
        assert false;
      }
    } else {
      assert forall i :: !OccursAt([], needle, i);
    }
  }

  /** A document whose lines all lack `c` lacks it too, unless `c` is the line feed. */
  lemma {:induction false} NoCharUnlines(lines: seq<string>, c: char)
    requires c != '\n'
    requires forall k :: 0 <= k < |lines| ==> NoChar(lines[k], c)
    ensures NoChar(Unlines(lines), c)
  {
    if lines != [] {
      NoCharUnlines(lines[1..], c);
      NoCharAppend(lines[0], "\n", c);
      NoCharAppend(lines[0] + "\n", Unlines(lines[1..]), c);
    }
  }

  /** A text that lacks one of a needle's characters does not contain the needle. */
  lemma AbsentChar(hay: string, needle: string, k: nat)
    requires k < |needle| && NoChar(hay, needle[k])
    ensures !Contains(hay, needle)
  {
    forall i | 0 <= i
      ensures !OccursAt(hay, needle, i)
    {
      if i + |needle| <= |hay| {
        assert hay[i..i + |needle|][k] == hay[i + k];
      }
    }
  }

  /** The parts of a text lacking `c` lack it too. */
  lemma NoCharSplit(a: string, b: string, c: char)
    requires NoChar(a + b, c)
    ensures NoChar(a, c) && NoChar(b, c)
  {
    forall k | 0 <= k < |b|
      ensures b[k] != c
    {
      assert (a + b)[|a| + k] == b[k];
    }
    forall k | 0 <= k < |a|
      ensures a[k] != c
    {
      assert (a + b)[k] == a[k];
    }
  }

  /** `line` ends with `m`. */
  predicate EndsWith(line: string, m: string) {
    |m| <= |line| && line[|line| - |m|..] == m
  }

  /** The number of lines that end with `m`. */
  function CountEndingWith(lines: seq<string>, m: string): (n: nat)
    ensures n <= |lines|
  {
    if |lines| == 0 then 0
    else (if EndsWith(lines[0], m) then 1 else 0) + CountEndingWith(lines[1..], m)
  }

  /** A line differing from `m` at the `k`-th character of the suffix where
      `m` would sit does not end with `m`. */
  lemma NotEndsWith(line: string, m: string, k: nat)
    requires k < |m|
    requires |m| <= |line| ==> line[|line| - |m| + k] != m[k]
    ensures !EndsWith(line, m)
  {
    if |m| <= |line| {
      assert line[|line| - |m|..][k] == line[|line| - |m| + k];
    }
  }

  lemma {:induction false} CountNone(lines: seq<string>, m: string)
    requires forall k :: 0 <= k < |lines| ==> !EndsWith(lines[k], m)
    ensures CountEndingWith(lines, m) == 0
  {
    if lines != [] {
      CountNone(lines[1..], m);
    }
  }

  lemma {:induction false} CountEndingWithAppend(a: seq<string>, b: seq<string>, m: string)
    ensures CountEndingWith(a + b, m) == CountEndingWith(a, m) + CountEndingWith(b, m)
  {
    if a == [] {
      assert a + b == b;
    } else {
      assert (a + b)[1..] == a[1..] + b;
      CountEndingWithAppend(a[1..], b, m);
    }
  }

  lemma MatchesOneLine(m: string, line: string, rest: string)
    requires NoChar(m, '\n') && NoChar(line, '\n')
    ensures NumberOfMatches(m + "\n", line + "\n" + rest)
            == (if EndsWith(line, m) then 1 else 0) + NumberOfMatches(m + "\n", rest)
  {
    var needle := m + "\n";
    var hay := line + "\n" + rest;
    // an occurrence inside the first line must end on its line feed
    forall j | 0 <= j <= |line| && OccursAt(hay, needle, j)
      ensures j == |line| - |m| && EndsWith(line, m)
    {
      var e := j + |m|;
      assert forall p :: j <= p < j + |needle| ==> hay[p] == needle[p - j];
      assert forall p :: 0 <= p < |line| ==> hay[p] == line[p];
      assert hay[|line|] == '\n';
      assert hay[e] == needle[|m|] == '\n';
      assert e == |line|;
      assert line[j..] == hay[j..j + |m|] == m;
    }
    if EndsWith(line, m) {
      var k := |line| - |m|;
      MatchesSkip(needle, hay, k);
      assert hay[k..] == needle + rest by {
        assert line[k..] == m;
      }
      assert (needle + rest)[..|needle|] == needle;
      assert (needle + rest)[|needle|..] == rest;
    } else {
      MatchesSkip(needle, hay, |line| + 1);
      assert hay[|line| + 1..] == rest;
    }
  }

  /** Counting a needle that ends a line, within a document: it is the number of
      lines that end with the needle's text. */
  lemma {:induction false} MatchesCountLines(lines: seq<string>, m: string)
    requires NoChar(m, '\n')
    requires forall k :: 0 <= k < |lines| ==> NoChar(lines[k], '\n')
    ensures NumberOfMatches(m + "\n", Unlines(lines)) == CountEndingWith(lines, m)
  {
    if lines != [] {
      MatchesOneLine(m, lines[0], Unlines(lines[1..]));
      MatchesCountLines(lines[1..], m);
    }
  }

  // ---------------------------------------------------------------------------
  // Decimal numbers

  function DigitChar(d: nat): char
    requires d < 10
  {
    ['0', '1', '2', '3', '4', '5', '6', '7', '8', '9'][d]
  }

  predicate IsDigit(c: char) {
    '0' <= c <= '9'
  }

  /** The decimal spelling of `n`, most significant digit first. */
  function NatToString(n: nat): (s: string)
    ensures |s| >= 1 && forall k :: 0 <= k < |s| ==> IsDigit(s[k])
    ensures |s| > 1 ==> s[0] != '0'
  {
    if n < 10 then [DigitChar(n)] else NatToString(n / 10) + [DigitChar(n % 10)]
  }

  function DigitValue(c: char): (d: nat)
    requires IsDigit(c)
    ensures d < 10
  {
    c as int - '0' as int
  }

  function ParseDecimal(s: string): nat
    requires forall k :: 0 <= k < |s| ==> IsDigit(s[k])
  {
    if |s| == 0 then 0
    else ParseDecimal(s[..|s| - 1]) * 10 + DigitValue(s[|s| - 1])
  }

  lemma {:induction false} DecimalRoundTrip(n: nat)
    ensures ParseDecimal(NatToString(n)) == n
  {
    var s := NatToString(n);
    if n >= 10 {
      DecimalRoundTrip(n / 10);
      assert s[..|s| - 1] == NatToString(n / 10);
    }
  }
}
