/** The depth- and quote-aware scanner shared by the call extractor and the
    argument splitter. A scan walks PHP source left to right, counting
    parentheses in code and skipping over quoted literals (a backslash inside a
    literal always takes the next character with it), so that a comma or a
    parenthesis inside a literal or a nested call is never mistaken for a
    separator of the outer call. */
module Scanner {
  import opened Wrappers
  import opened Text
  import opened Literal

  /** Where a scan stands: in code at a parenthesis depth, or inside a literal
      opened by `quote` at that depth (`escaped` right after a backslash). */
  datatype ScanState = Code(depth: nat) | Quoted(depth: nat, quote: char, escaped: bool)

  function Step(st: ScanState, c: char): ScanState {
    match st
    case Code(d) =>
      if c == '(' then Code(d + 1)
      else if c == ')' then Code(if d == 0 then 0 else d - 1)
      else if IsQuote(c) then Quoted(d, c, false)
      else st
    case Quoted(d, q, esc) =>
      if esc then Quoted(d, q, false)
      else if c == BS then Quoted(d, q, true)
      else if c == q then Code(d)
      else st
  }

  /** The state after scanning all of `s`. */
  function Run(st: ScanState, s: string): ScanState
    decreases |s|
  {
    if |s| == 0 then st else Run(Step(st, s[0]), s[1..])
  }

  lemma {:induction false} RunAppend(st: ScanState, a: string, b: string)
    ensures Run(st, a + b) == Run(Run(st, a), b)
    decreases |a|
  {
    if a == [] {
      assert a + b == b;
    } else {
      assert (a + b)[1..] == a[1..] + b;
      RunAppend(Step(st, a[0]), a[1..], b);
    }
  }

  /** `s` has a top-level `stop` at `j`: the scan reaches `j` in code at depth 0
      and finds `stop` there. */
  predicate HitAt(st: ScanState, s: string, stop: char, j: int) {
    0 <= j < |s| && s[j] == stop && Run(st, s[..j]) == Code(0)
  }

  lemma HitShift(st: ScanState, s: string, stop: char)
    requires |s| > 0
    ensures forall j :: 1 <= j < |s| ==>
              (HitAt(st, s, stop, j) <==> HitAt(Step(st, s[0]), s[1..], stop, j - 1))
    ensures HitAt(st, s, stop, 0) <==> st == Code(0) && s[0] == stop
  {
    forall j | 1 <= j < |s|
      ensures Run(st, s[..j]) == Run(Step(st, s[0]), s[1..][..j - 1])
    {
      assert s[..j][1..] == s[1..][..j - 1];
    }
    assert s[..0] == [];
  }

  /** The position of the first top-level `stop`, or None when there is none. */
  function Seek(st: ScanState, s: string, stop: char): (r: Option<nat>)
    decreases |s|
  {
    if |s| == 0 then None
    else if st == Code(0) && s[0] == stop then Some(0)
    else match Seek(Step(st, s[0]), s[1..], stop)
      case None => None
      case Some(k) => Some(k + 1)
  }

  /** What the search finds: a top-level `stop`, and no earlier one. */
  lemma {:induction false} SeekHits(st: ScanState, s: string, stop: char)
    ensures Seek(st, s, stop).Some? ==> HitAt(st, s, stop, Seek(st, s, stop).value)
    ensures forall j :: 0 <= j < |s| && (Seek(st, s, stop).None? || j < Seek(st, s, stop).value)
                        ==> !HitAt(st, s, stop, j)
    decreases |s|
  {
    if |s| > 0 {
      HitShift(st, s, stop);
      SeekHits(Step(st, s[0]), s[1..], stop);
    }
  }

  function Shift(n: nat, o: Option<nat>): Option<nat> {
    match o
    case None => None
    case Some(k) => Some(n + k)
  }

  lemma {:induction false} SeekAppend(st: ScanState, a: string, b: string, stop: char)
    ensures Seek(st, a + b, stop)
            == if Seek(st, a, stop).Some? then Seek(st, a, stop)
               else Shift(|a|, Seek(Run(st, a), b, stop))
    decreases |a|
  {
    if a == [] {
      assert a + b == b;
    } else {
      var ab := a + b;
      assert ab[0] == a[0] && ab[1..] == a[1..] + b;
      SeekStep(st, ab, stop);
      SeekStep(st, a, stop);
      SeekAppend(Step(st, a[0]), a[1..], b, stop);
    }
  }

  /** One character of `s` scanned, the search goes on in the rest. */
  lemma SeekStep(st: ScanState, s: string, stop: char)
    requires |s| > 0
    ensures Seek(st, s, stop)
            == if st == Code(0) && s[0] == stop then Some(0)
               else Shift(1, Seek(Step(st, s[0]), s[1..], stop))
  {
  }

  // ---------------------------------------------------------------------------
  // Pieces the scanner passes over without effect

  /** Scanning `s` from code at depth `d` ends at depth `d` again and finds no
      top-level `stop` on the way. */
  predicate Clear(d: nat, s: string, stop: char) {
    Run(Code(d), s) == Code(d) && Seek(Code(d), s, stop) == None
  }

  lemma ClearAppend(d: nat, a: string, b: string, stop: char)
    requires Clear(d, a, stop) && Clear(d, b, stop)
    ensures Clear(d, a + b, stop)
  {
    RunAppend(Code(d), a, b);
    SeekAppend(Code(d), a, b, stop);
  }

  /** Code without parentheses, quotes or `stop` leaves the scan where it was. */
  lemma {:induction false} ClearPlain(d: nat, s: string, stop: char)
    requires NoChar(s, '(') && NoChar(s, ')') && NoChar(s, SQ) && NoChar(s, DQ) && NoChar(s, stop)
    ensures Clear(d, s, stop)
    decreases |s|
  {
    if s != [] {
      assert Step(Code(d), s[0]) == Code(d);
      ClearPlain(d, s[1..], stop);
    }
  }

  lemma {:induction false} QuotedRun(d: nat, q: char, body: string, stop: char)
    requires ClosedBody(q, body)
    ensures Run(Quoted(d, q, false), body) == Quoted(d, q, false)
    ensures Seek(Quoted(d, q, false), body, stop) == None
    decreases |body|
  {
    if body != [] {
      if body[0] == BS {
        assert body[1..][1..] == body[2..];
        QuotedRun(d, q, body[2..], stop);
      } else {
        QuotedRun(d, q, body[1..], stop);
      }
    }
  }

  /** A complete quoted literal leaves the scan where it was, whatever commas
      or parentheses it holds. */
  lemma ClearLiteral(d: nat, tok: string, stop: char)
    requires IsLiteral(tok) && !IsQuote(stop)
    ensures Clear(d, tok, stop)
  {
    var q := tok[0];
    var body := Body(tok);
    assert tok == [q] + body + [q];
    QuotedRun(d, q, body, stop);
    RunAppend(Code(d), [q] + body, [q]);
    RunAppend(Code(d), [q], body);
    SeekAppend(Code(d), [q] + body, [q], stop);
    SeekAppend(Code(d), [q], body, stop);
    assert Run(Quoted(d, q, false), [q]) == Code(d);
  }

  function Lift(st: ScanState, n: nat): ScanState {
    match st
    case Code(d) => Code(d + n)
    case Quoted(d, q, e) => Quoted(d + n, q, e)
  }

  /** A piece with no top-level `)` behaves the same at any extra depth, and
      at a positive extra depth nothing in it is top level. */
  lemma {:induction false} RunLift(st: ScanState, s: string, n: nat, stop: char)
    requires Seek(st, s, ')') == None
    ensures Run(Lift(st, n), s) == Lift(Run(st, s), n)
    ensures n > 0 ==> Seek(Lift(st, n), s, stop) == None
    decreases |s|
  {
    if s != [] {
      assert Step(Lift(st, n), s[0]) == Lift(Step(st, s[0]), n);
      RunLift(Step(st, s[0]), s[1..], n, stop);
    }
  }

  /** A balanced piece wrapped in parentheses leaves the scan where it was. */
  lemma ClearWrapped(d: nat, x: string, stop: char)
    requires Clear(0, x, ')') && stop != '('
    ensures Clear(d, "(" + x + ")", stop)
  {
    RunLift(Code(0), x, d + 1, stop);
    assert "(" + x + ")" == ("(" + x) + ")";
    RunAppend(Code(d), "(", x);
    RunAppend(Code(d), "(" + x, ")");
    SeekAppend(Code(d), "(", x, stop);
    SeekAppend(Code(d), "(" + x, ")", stop);
  }

  /** Scanning from just after an opening parenthesis: when `inner` is clear of
      top-level `)`, the matching closing parenthesis is the one right after it. */
  lemma MatchAfter(inner: string, post: string)
    requires Clear(0, inner, ')')
    ensures Seek(Code(0), inner + ")" + post, ')') == Some(|inner|)
  {
    assert inner + ")" + post == inner + (")" + post);
    SeekAppend(Code(0), inner, ")" + post, ')');
  }

  /** The arguments of a call whose `(` has just been read: the text up to the
      first `)` at nesting depth zero outside string literals. */
  function Bracketed(rest: string): (r: Option<string>)
    ensures r.Some? ==> |r.value| < |rest| && rest[|r.value|] == ')'
                        && rest[..|r.value|] == r.value
    ensures r.Some? ==> Clear(0, r.value, ')')
  {
    match Seek(Code(0), rest, ')')
    case None => None
    case Some(k) =>
      SeekHits(Code(0), rest, ')');
      SeekPrefix(Code(0), rest, ')', k);
      Some(rest[..k])
  }

  /** Arguments clear of any top-level `)` are exactly what `Bracketed` finds
      in front of the closing parenthesis. */
  lemma BracketedAfter(inner: string, post: string)
    requires Clear(0, inner, ')')
    ensures Bracketed(inner + ")" + post) == Some(inner)
  {
    MatchAfter(inner, post);
    assert (inner + ")" + post)[..|inner|] == inner;
  }

  // ---------------------------------------------------------------------------
  // Splitting an argument list

  lemma SeekPrefix(st: ScanState, s: string, stop: char, k: nat)
    requires k <= |s|
    requires forall j :: 0 <= j < k ==> !HitAt(st, s, stop, j)
    ensures Seek(st, s[..k], stop) == None
  {
    SeekHits(st, s[..k], stop);
    forall j | 0 <= j < k
      ensures !HitAt(st, s[..k], stop, j)
    {
      assert s[..k][..j] == s[..j];
      assert s[..k][j] == s[j];
      assert !HitAt(st, s, stop, j);
    }
  }

  /** The raw arguments of a call: the text between its parentheses cut at
      every top-level comma. */
  function Split(s: string): (parts: seq<string>)
    ensures |parts| >= 1
    ensures forall k :: 0 <= k < |parts| ==> Seek(Code(0), parts[k], ',') == None
    decreases |s|
  {
    match Seek(Code(0), s, ',')
    case None => [s]
    case Some(k) =>
      SeekHits(Code(0), s, ',');
      SeekPrefix(Code(0), s, ',', k);
      [s[..k]] + Split(s[k + 1..])
  }

  /** Arguments written out again, separated by commas. */
  function JoinArgs(parts: seq<string>): string
    requires |parts| >= 1
  {
    if |parts| == 1 then parts[0] else parts[0] + "," + JoinArgs(parts[1..])
  }

  /** Splitting loses nothing: the pieces, rejoined, are the original text. */
  lemma {:induction false} SplitJoin(s: string)
    ensures JoinArgs(Split(s)) == s
    decreases |s|
  {
    match Seek(Code(0), s, ',')
    case None =>
    case Some(k) =>
      SeekFound(Code(0), s, ',');
      SplitAt(s, k);
      SplitJoinStep(s[..k], Split(s[k + 1..]));
      SplitJoin(s[k + 1..]);
      assert s == s[..k] + "," + s[k + 1..];
  }

  /** Where the first top-level comma is, the text is cut. */
  lemma SplitAt(s: string, k: nat)
    requires Seek(Code(0), s, ',') == Some(k) && k < |s|
    ensures Split(s) == [s[..k]] + Split(s[k + 1..])
  {
  }

  /** A found `stop` is inside the text. */
  lemma SeekFound(st: ScanState, s: string, stop: char)
    requires Seek(st, s, stop).Some?
    ensures Seek(st, s, stop).value < |s| && s[Seek(st, s, stop).value] == stop
  {
    SeekHits(st, s, stop);
  }

  lemma SplitJoinStep(first: string, tail: seq<string>)
    requires |tail| >= 1
    ensures JoinArgs([first] + tail) == first + "," + JoinArgs(tail)
  {
    assert ([first] + tail)[1..] == tail;
  }

  /** Splitting undoes joining, as long as no argument holds a top-level comma
      of its own or leaves a parenthesis or literal open. */
  lemma {:induction false} JoinSplit(parts: seq<string>)
    requires |parts| >= 1
    requires forall k :: 0 <= k < |parts| ==> Clear(0, parts[k], ',')
    ensures Split(JoinArgs(parts)) == parts
    decreases |parts|
  {
    if |parts| > 1 {
      SplitCons(parts[0], JoinArgs(parts[1..]));
      JoinSplit(parts[1..]);
      assert parts == [parts[0]] + parts[1..];
    }
  }

  /** An argument without a top-level comma, then a comma, is split off whole. */
  lemma SplitCons(a: string, rest: string)
    requires Clear(0, a, ',')
    ensures Split(a + "," + rest) == [a] + Split(rest)
  {
    var s := a + "," + rest;
    assert s == a + ("," + rest);
    SeekAppend(Code(0), a, "," + rest, ',');
    assert Seek(Code(0), s, ',') == Some(|a|);
    assert s[..|a|] == a;
    assert s[|a| + 1..] == rest;
  }

  /** Joined arguments, none of which holds a top-level `)`, hold none either. */
  lemma {:induction false} ClearJoin(parts: seq<string>)
    requires |parts| >= 1
    requires forall k :: 0 <= k < |parts| ==> Clear(0, parts[k], ')')
    ensures Clear(0, JoinArgs(parts), ')')
    decreases |parts|
  {
    if |parts| > 1 {
      ClearJoin(parts[1..]);
      ClearPlain(0, ",", ')');
      ClearAppend(0, parts[0], ",", ')');
      ClearAppend(0, parts[0] + ",", JoinArgs(parts[1..]), ')');
    }
  }

  /** One argument, as the extractor uses it: the surrounding whitespace removed,
      then one layer of parentheses that wraps all of it removed. */
  function Clean(arg: string): (r: string)
    ensures Trimmed(r)
    ensures |r| <= |arg|
  {
    var t := Trim(arg);
    if |t| >= 2 && t[0] == '(' && Seek(Code(0), t[1..], ')') == Some(|t| - 2) then
      Trim(t[1..|t| - 1])
    else t
  }

  /** Whitespace around a quoted literal is all that cleaning removes. */
  lemma CleanLiteral(w1: string, tok: string, w2: string)
    requires AllSpace(w1) && AllSpace(w2) && IsLiteral(tok)
    ensures Clean(w1 + tok + w2) == tok
  {
    TrimExact(w1, tok, w2);
  }

  /** A parenthesised argument is cleaned down to what the parentheses hold. */
  lemma CleanWrapped(w1: string, x: string, w2: string)
    requires AllSpace(w1) && AllSpace(w2) && Clear(0, x, ')')
    ensures Clean(w1 + "(" + x + ")" + w2) == Trim(x)
  {
    var t := "(" + x + ")";
    var arg := w1 + "(" + x + ")" + w2;
    assert arg == w1 + t + w2;
    TrimExact(w1, t, w2);
    Unwrap(x);
    CleanUnwraps(arg, t);
  }

  /** Helper for `CleanWrapped`: the unwrapping branch of `Clean`. */
  lemma CleanUnwraps(arg: string, t: string)
    requires Trim(arg) == t
    requires |t| >= 2 && t[0] == '(' && Seek(Code(0), t[1..], ')') == Some(|t| - 2)
    ensures Clean(arg) == Trim(t[1..|t| - 1])
  {
  }

  lemma Unwrap(x: string)
    requires Clear(0, x, ')')
    ensures var t := "(" + x + ")";
            |t| >= 2 && t[0] == '(' && Seek(Code(0), t[1..], ')') == Some(|t| - 2)
            && t[1..|t| - 1] == x
  {
    var t := "(" + x + ")";
    assert t[1..] == x + ")" + [];
    MatchAfter(x, []);
  }

  function CleanAll(parts: seq<string>): (r: seq<string>)
    ensures |r| == |parts|
    ensures forall k :: 0 <= k < |parts| ==> r[k] == Clean(parts[k])
  {
    if |parts| == 0 then [] else [Clean(parts[0])] + CleanAll(parts[1..])
  }

  /** The cleaned arguments of a call, given the text between its parentheses. */
  function SplitArgs(inner: string): (args: seq<string>)
    ensures |args| >= 1
  {
    CleanAll(Split(inner))
  }

  // ---------------------------------------------------------------------------
  // Argument lists laid out piece by piece

  /** The separator and the closing parenthesis a piece must not hide. */
  predicate Separable(arg: string) {
    Clear(0, arg, ',') && Clear(0, arg, ')')
  }

  lemma SpaceClear(d: nat, w: string, stop: char)
    requires AllSpace(w) && !IsSpace(stop)
    ensures Clear(d, w, stop)
  {
    ClearPlain(d, w, stop);
  }

  /** Whitespace around a piece changes nothing for the scan. */
  lemma ClearAround(w1: string, t: string, w2: string, stop: char)
    requires AllSpace(w1) && AllSpace(w2) && !IsSpace(stop) && Clear(0, t, stop)
    ensures Clear(0, w1 + t + w2, stop)
  {
    SpaceClear(0, w1, stop);
    SpaceClear(0, w2, stop);
    ClearAppend(0, w1, t, stop);
    ClearAppend(0, w1 + t, w2, stop);
  }

  /** A quoted literal with whitespace around it is one argument, cleaned to
      the literal itself. */
  lemma LiteralArg(w1: string, tok: string, w2: string)
    requires AllSpace(w1) && AllSpace(w2) && IsLiteral(tok)
    ensures Separable(w1 + tok + w2)
    ensures Clean(w1 + tok + w2) == tok
  {
    CleanLiteral(w1, tok, w2);
    ClearLiteral(0, tok, ',');
    ClearLiteral(0, tok, ')');
    ClearAround(w1, tok, w2, ',');
    ClearAround(w1, tok, w2, ')');
  }

  /** So is a bare token such as a number, a variable or a constant. */
  lemma PlainArg(w1: string, tok: string, w2: string)
    requires AllSpace(w1) && AllSpace(w2) && Trimmed(tok)
    requires NoChar(tok, '(') && NoChar(tok, ')') && NoChar(tok, SQ) && NoChar(tok, DQ) && NoChar(tok, ',')
    ensures Separable(w1 + tok + w2)
    ensures Clean(w1 + tok + w2) == tok
  {
    TrimExact(w1, tok, w2);
    ClearPlain(0, tok, ',');
    ClearPlain(0, tok, ')');
    ClearAround(w1, tok, w2, ',');
    ClearAround(w1, tok, w2, ')');
  }

  /** A parenthesised argument is one argument, whatever commas it holds,
      cleaned to what the parentheses hold. */
  lemma WrappedArg(w1: string, x: string, w2: string)
    requires AllSpace(w1) && AllSpace(w2) && Clear(0, x, ')')
    ensures Separable(w1 + "(" + x + ")" + w2)
    ensures Clean(w1 + "(" + x + ")" + w2) == Trim(x)
  {
    CleanWrapped(w1, x, w2);
    var t := "(" + x + ")";
    assert w1 + "(" + x + ")" + w2 == w1 + t + w2;
    ClearWrapped(0, x, ',');
    ClearWrapped(0, x, ')');
    ClearAround(w1, t, w2, ',');
    ClearAround(w1, t, w2, ')');
  }

  /** Arguments written out with commas between them close at the next
      parenthesis and split back into themselves, cleaned. */
  lemma ArgList(parts: seq<string>)
    requires |parts| >= 1
    requires forall k :: 0 <= k < |parts| ==> Separable(parts[k])
    ensures Clear(0, JoinArgs(parts), ')')
    ensures SplitArgs(JoinArgs(parts)) == CleanAll(parts)
  {
    ClearJoin(parts);
    JoinSplit(parts);
  }
}
