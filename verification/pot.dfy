/** The POT renderer: the catalog becomes a gettext template, following the
    layout of chapter 3 "The Format of PO Files" of the GNU gettext manual.
    Every line of the document is free of raw newlines; text that holds
    newlines is written in the multi-line form, one quoted piece per line. */
module Pot {
  import opened Wrappers
  import opened Text
  import opened CatalogBuilder

  // ---------------------------------------------------------------------------
  // Escaping inside quoted strings

  /** One character as it is written between double quotes. */
  function EscapeChar(c: char): (e: string)
    ensures 1 <= |e| <= 2
    ensures |e| == 2 <==> e[0] == '\\'
  {
    if c == '\\' then "\\\\"
    else if c == '"' then "\\\""
    else if c == '\t' then "\\t"
    else if c == '\n' then "\\n"
    else [c]
  }

  /** A text as it is written between double quotes: backslash, double quote,
      tab and newline become two-character escapes. */
  function Escape(s: string): (e: string)
    ensures |s| <= |e| <= 2 * |s|
  {
    if s == [] then [] else EscapeChar(s[0]) + Escape(s[1..])
  }

  /** Reads the escapes of a quoted PO string back into text; a backslash
      before any other character is kept as written. */
  function Unescape(e: string): (s: string)
    decreases |e|
  {
    if |e| == 0 then []
    else if e[0] == '\\' && |e| >= 2 then
      var c := e[1];
      (if c == '\\' then "\\" else if c == '"' then "\"" else if c == 't' then "\t"
       else if c == 'n' then "\n" else ['\\', c]) + Unescape(e[2..])
    else [e[0]] + Unescape(e[1..])
  }

  lemma UnescapeChar(c: char, rest: string)
    ensures Unescape(EscapeChar(c) + rest) == [c] + Unescape(rest)
  {
    var e := EscapeChar(c) + rest;
    if |EscapeChar(c)| == 2 {
      assert e[2..] == rest;
    } else {
      assert e[1..] == rest;
    }
  }

  /** Reading back what was escaped gives the text. */
  lemma {:induction false} EscapeRoundTrip(s: string)
    ensures Unescape(Escape(s)) == s
  {
    if s != [] {
      EscapeRoundTrip(s[1..]);
      UnescapeChar(s[0], Escape(s[1..]));
    }
  }

  lemma {:induction false} EscapeAppend(a: string, b: string)
    ensures Escape(a + b) == Escape(a) + Escape(b)
  {
    if a == [] {
      assert a + b == b;
    } else {
      assert (a + b)[1..] == a[1..] + b;
      EscapeAppend(a[1..], b);
    }
  }

  /** An escaped text holds no raw newline and no double quote that is not
      escaped: it can stand between two double quotes on one line. */
  lemma {:induction false} EscapeSafe(s: string)
    ensures NoChar(Escape(s), '\n')
    ensures QuoteFree(Escape(s))
  {
    if s != [] {
      EscapeSafe(s[1..]);
      var e := EscapeChar(s[0]);
      NoCharAppend(e, Escape(s[1..]), '\n');
      if |e| == 2 {
        assert (e + Escape(s[1..]))[2..] == Escape(s[1..]);
      } else {
        assert (e + Escape(s[1..]))[1..] == Escape(s[1..]);
      }
    }
  }

  /** Every double quote is escaped: a backslash always takes the next
      character with it. */
  predicate QuoteFree(e: string)
    decreases |e|
  {
    if |e| == 0 then true
    else if e[0] == '\\' then |e| >= 2 && QuoteFree(e[2..])
    else e[0] != '"' && QuoteFree(e[1..])
  }

  /** Escaping introduces nothing but backslashes, double quotes and the
      letters `t` and `n`: any other absent character stays absent. */
  lemma {:induction false} EscapeKeepsAbsent(s: string, c: char)
    requires c != '\\' && c != '"' && c != 't' && c != 'n'
    requires NoChar(s, c)
    ensures NoChar(Escape(s), c)
  {
    if s != [] {
      EscapeKeepsAbsent(s[1..], c);
      NoCharAppend(EscapeChar(s[0]), Escape(s[1..]), c);
    }
  }

  /** A text with nothing to escape. */
  predicate Plain(s: string) {
    forall k :: 0 <= k < |s| ==> s[k] != '\\' && s[k] != '"' && s[k] != '\t' && s[k] != '\n'
  }

  /** A text with nothing to escape is written as it is. */
  lemma {:induction false} EscapePlain(s: string)
    requires Plain(s)
    ensures Escape(s) == s
  {
    if s != [] {
      EscapePlain(s[1..]);
      assert s == [s[0]] + s[1..];
    }
  }

  /** A text between double quotes. */
  function Quote(s: string): (line: string)
    ensures |line| >= 2 && line[0] == '"' && line[|line| - 1] == '"'
  {
    "\"" + Escape(s) + "\""
  }

  /** The text a quoted line stands for, if it is one. */
  function QuotedValue(line: string): Option<string> {
    if |line| >= 2 && line[0] == '"' && line[|line| - 1] == '"' then
      Some(Unescape(line[1..|line| - 1]))
    else None
  }

  lemma QuoteRoundTrip(s: string)
    ensures QuotedValue(Quote(s)) == Some(s)
    ensures NoChar(Quote(s), '\n')
  {
    assert Quote(s)[1..|Quote(s)| - 1] == Escape(s);
    EscapeRoundTrip(s);
    EscapeSafe(s);
    NoCharAppend("\"", Escape(s), '\n');
    NoCharAppend("\"" + Escape(s), "\"", '\n');
  }

  // ---------------------------------------------------------------------------
  // Multi-line strings

  /** The first position of `c` in `s`. */
  function FirstAt(s: string, c: char): (i: nat)
    requires !NoChar(s, c)
    ensures i < |s| && s[i] == c && NoChar(s[..i], c)
  {
    if s[0] == c then 0
    else
      var i := FirstAt(s[1..], c) + 1;
      assert s[..i] == [s[0]] + s[1..][..i - 1];
      i
  }

  function Concat(ps: seq<string>): string {
    if ps == [] then [] else ps[0] + Concat(ps[1..])
  }

  /** A text cut after each newline. */
  function Pieces(text: string): (ps: seq<string>)
    ensures |ps| >= 1
    decreases |text|
  {
    if NoChar(text, '\n') then [text]
    else
      var i := FirstAt(text, '\n');
      [text[..i + 1]] + Pieces(text[i + 1..])
  }

  /** The pieces join up to the text. */
  lemma {:induction false} PiecesJoin(text: string)
    ensures Concat(Pieces(text)) == text
    decreases |text|
  {
    if !NoChar(text, '\n') {
      var i := FirstAt(text, '\n');
      PiecesJoin(text[i + 1..]);
      PiecesStep(text, i);
      assert text == text[..i + 1] + text[i + 1..];
    }
  }

  /** Cutting at the first newline `i`: the piece up to it, then the pieces of the rest. */
  lemma PiecesStep(text: string, i: nat)
    requires !NoChar(text, '\n') && i == FirstAt(text, '\n')
    ensures Pieces(text) == [text[..i + 1]] + Pieces(text[i + 1..])
    ensures Concat(Pieces(text)) == text[..i + 1] + Concat(Pieces(text[i + 1..]))
  {
    PiecesCons(text, i);
    ConcatCons(text[..i + 1], Pieces(text[i + 1..]));
  }

  lemma PiecesCons(text: string, i: nat)
    requires HasChar(text, '\n') && i == FirstAt(text, '\n')
    ensures Pieces(text) == [text[..i + 1]] + Pieces(text[i + 1..])
  {
  }

  lemma ConcatCons(p: string, ps: seq<string>)
    ensures Concat([p] + ps) == p + Concat(ps)
  {
    assert ([p] + ps)[1..] == ps;
  }

  /** A piece cut off before the last: it ends with the newline it was cut at
      and holds no other. */
  predicate CutPiece(p: string) {
    |p| >= 1 && p[|p| - 1] == '\n' && NoChar(p[..|p| - 1], '\n')
  }

  /** Every piece but the last is a cut piece; the last holds no newline. */
  predicate CutUp(ps: seq<string>) {
    && |ps| >= 1
    && NoChar(ps[|ps| - 1], '\n')
    && forall k :: 0 <= k < |ps| - 1 ==> CutPiece(ps[k])
  }

  lemma CutCons(head: string, rest: seq<string>)
    requires CutPiece(head) && CutUp(rest)
    ensures CutUp([head] + rest)
  {
    var ps := [head] + rest;
    assert ps[|ps| - 1] == rest[|rest| - 1];
    forall k | 1 <= k < |ps| - 1
      ensures ps[k] == rest[k - 1]
    {
    }
  }

  /** The pieces of a text are cut at its newlines. */
  lemma {:induction false} PiecesCut(text: string)
    ensures CutUp(Pieces(text))
    decreases |text|
  {
    if !NoChar(text, '\n') {
      var i := FirstAt(text, '\n');
      var head := text[..i + 1];
      assert head[..|head| - 1] == text[..i];
      PiecesCut(text[i + 1..]);
      PiecesStep(text, i);
      CutCons(head, Pieces(text[i + 1..]));
    }
  }

  function QuoteAll(ps: seq<string>): (lines: seq<string>)
    ensures |lines| == |ps|
    ensures forall k :: 0 <= k < |ps| ==> lines[k] == Quote(ps[k])
  {
    if ps == [] then [] else [Quote(ps[0])] + QuoteAll(ps[1..])
  }

  /** The lines for a keyword and its text: one line when the text holds no
      newline, otherwise the keyword with an empty string followed by one
      quoted line per newline-terminated piece. */
  function StringLines(kw: string, text: string): (lines: seq<string>)
    ensures |lines| >= 1
    ensures NoChar(text, '\n') <==> |lines| == 1
  {
    if NoChar(text, '\n') then [kw + " " + Quote(text)]
    else [kw + " " + Quote("")] + QuoteAll(Pieces(text))
  }

  /** What a keyword's lines stand for in a PO file: the quoted strings, with
      escapes read back, joined together. */
  function ReadString(kw: string, lines: seq<string>): Option<string> {
    if |lines| == 0 then None
    else
      var first := lines[0];
      var pre := kw + " ";
      if |first| < |pre| || first[..|pre|] != pre then None
      else Join(QuotedValue(first[|pre|..]), ReadQuoted(lines[1..]))
  }

  function Join(a: Option<string>, b: Option<string>): Option<string> {
    if a.Some? && b.Some? then Some(a.value + b.value) else None
  }

  lemma JoinEmpty(b: string)
    ensures Join(Some([]), Some(b)) == Some(b)
  {
    assert [] + b == b;
  }

  function ReadQuoted(lines: seq<string>): Option<string> {
    if lines == [] then Some([])
    else Join(QuotedValue(lines[0]), ReadQuoted(lines[1..]))
  }

  lemma {:induction false} ReadQuotedAll(ps: seq<string>)
    ensures ReadQuoted(QuoteAll(ps)) == Some(Concat(ps))
  {
    if ps != [] {
      ReadQuotedAll(ps[1..]);
      QuoteRoundTrip(ps[0]);
      assert QuoteAll(ps)[1..] == QuoteAll(ps[1..]);
    }
  }

  lemma ReadFirst(kw: string, q: string, rest: seq<string>)
    ensures ReadString(kw, [kw + " " + q] + rest) == Join(QuotedValue(q), ReadQuoted(rest))
  {
    var first := kw + " " + q;
    assert first[..|kw + " "|] == kw + " ";
    assert first[|kw + " "|..] == q;
    assert ([first] + rest)[1..] == rest;
  }

  /** Reading a keyword's lines gives back the text they were written from. */
  lemma StringLinesRoundTrip(kw: string, text: string)
    ensures ReadString(kw, StringLines(kw, text)) == Some(text)
  {
    if NoChar(text, '\n') {
      SingleRoundTrip(kw, text);
    } else {
      MultiRoundTrip(kw, text);
    }
  }

  lemma SingleRoundTrip(kw: string, text: string)
    ensures ReadString(kw, [kw + " " + Quote(text)]) == Some(text)
  {
    assert [kw + " " + Quote(text)] == [kw + " " + Quote(text)] + [];
    ReadFirst(kw, Quote(text), []);
    QuoteRoundTrip(text);
    assert text + [] == text;
  }

  lemma MultiRoundTrip(kw: string, text: string)
    ensures ReadString(kw, [kw + " " + Quote("")] + QuoteAll(Pieces(text))) == Some(text)
  {
    var ps := Pieces(text);
    PiecesJoin(text);
    ReadFirst(kw, Quote(""), QuoteAll(ps));
    QuoteRoundTrip("");
    ReadQuotedAll(ps);
    JoinEmpty(Concat(ps));
  }

  lemma {:induction false} QuoteAllLines(ps: seq<string>)
    ensures forall k :: 0 <= k < |QuoteAll(ps)| ==> NoChar(QuoteAll(ps)[k], '\n')
  {
    forall k | 0 <= k < |ps|
      ensures NoChar(QuoteAll(ps)[k], '\n')
    {
      QuoteRoundTrip(ps[k]);
    }
  }

  /** No line of a list holds `c`. */
  predicate LinesLack(lines: seq<string>, c: char) {
    forall k :: 0 <= k < |lines| ==> NoChar(lines[k], c)
  }

  lemma LacksAppend(a: seq<string>, b: seq<string>, c: char)
    requires LinesLack(a, c) && LinesLack(b, c)
    ensures LinesLack(a + b, c)
  {
  }

  /** A keyword's lines are lines: none holds a raw newline. */
  lemma StringLinesSafe(kw: string, text: string)
    requires NoChar(kw, '\n')
    ensures LinesLack(StringLines(kw, text), '\n')
  {
    if NoChar(text, '\n') {
      KeywordLineSafe(kw, text);
    } else {
      KeywordLineSafe(kw, "");
      QuoteAllLines(Pieces(text));
      LacksAppend([kw + " " + Quote("")], QuoteAll(Pieces(text)), '\n');
    }
  }

  lemma KeywordLineSafe(kw: string, text: string)
    requires NoChar(kw, '\n')
    ensures NoChar(kw + " " + Quote(text), '\n')
  {
    QuoteRoundTrip(text);
    NoCharAppend(kw, " ", '\n');
    NoCharAppend(kw + " ", Quote(text), '\n');
  }

  /** A text without newline is written on the keyword's own line. */
  lemma OneLine(kw: string, text: string)
    requires NoChar(text, '\n')
    ensures Unlines(StringLines(kw, text)) == kw + " \"" + Escape(text) + "\"\n"
  {
    UnlinesOne(kw + " " + Quote(text));
  }

  /** The first newline of a text is the one with none before it. */
  lemma {:induction false} FirstAtUnique(s: string, c: char, j: nat)
    requires j < |s| && s[j] == c && NoChar(s[..j], c)
    ensures FirstAt(s, c) == j
  {
    if j > 0 {
      assert s[..j][0] == s[0];
      assert s[1..][..j - 1] == s[..j][1..];
      FirstAtUnique(s[1..], c, j - 1);
    }
  }

  /** A text with one newline is cut just after it. */
  lemma PiecesAround(a: string, b: string)
    requires NoChar(a, '\n') && NoChar(b, '\n')
    ensures Pieces(a + "\n" + b) == [a + "\n", b]
  {
    var t := a + "\n" + b;
    assert t[..|a|] == a;
    FirstAtUnique(t, '\n', |a|);
    assert t[..|a| + 1] == a + "\n";
    assert t[|a| + 1..] == b;
  }

  /** The lines of a text with one newline: the keyword with an empty string,
      then the two sides of the newline, quoted. */
  lemma TwoPieces(kw: string, a: string, b: string)
    requires NoChar(a, '\n') && NoChar(b, '\n')
    ensures StringLines(kw, a + "\n" + b) == [kw + " " + Quote(""), Quote(a + "\n"), Quote(b)]
  {
    var t := a + "\n" + b;
    assert t[|a|] == '\n';
    PiecesAround(a, b);
    assert QuoteAll([a + "\n", b]) == [Quote(a + "\n"), Quote(b)];
  }

  /** A quoted text ending in a newline ends in the newline's escape. */
  lemma QuoteBreak(a: string)
    ensures Quote(a + "\n") == "\"" + Escape(a) + "\\n\""
  {
    var e := Escape(a);
    assert Escape(a + "\n") == e + "\\n" by {
      EscapeAppend(a, "\n");
      EscapeNewline();
    }
  }

  lemma EscapeNewline()
    ensures Escape("\n") == "\\n"
  {
    assert "\n"[1..] == [];
  }

  /** A text with one newline is written as an empty string on the keyword's
      line, then one quoted line for each side of the newline, the first
      ending in the newline's escape. */
  lemma TwoLines(kw: string, a: string, b: string)
    requires NoChar(a, '\n') && NoChar(b, '\n')
    ensures StringLines(kw, a + "\n" + b)
            == [kw + " \"\"", "\"" + Escape(a) + "\\n\"", "\"" + Escape(b) + "\""]
  {
    TwoPieces(kw, a, b);
    QuoteBreak(a);
    EmptyLine(kw);
  }

  lemma EmptyLine(kw: string)
    ensures kw + " " + Quote("") == kw + " \"\""
  {
    assert Quote("") == "\"\"";
  }

  /** A text lacking `c` is written in lines lacking `c`, provided neither the
      keyword nor quoting brings it in. */
  lemma StringLinesAvoid(kw: string, text: string, c: char)
    requires c != ' ' && c != '"' && c != '\\' && c != 't' && c != 'n'
    requires NoChar(kw, c) && NoChar(text, c)
    ensures LinesLack(StringLines(kw, text), c)
  {
    if NoChar(text, '\n') {
      KeywordAvoids(kw, text, c);
    } else {
      KeywordAvoids(kw, "", c);
      var ps := Pieces(text);
      PiecesJoin(text);
      ConcatAvoids(ps, c);
      forall k | 0 <= k < |ps|
        ensures NoChar(Quote(ps[k]), c)
      {
        QuoteAvoids(ps[k], c);
      }
    }
  }

  lemma KeywordAvoids(kw: string, text: string, c: char)
    requires c != ' ' && c != '"' && c != '\\' && c != 't' && c != 'n'
    requires NoChar(kw, c) && NoChar(text, c)
    ensures NoChar(kw + " " + Quote(text), c)
  {
    QuoteAvoids(text, c);
    NoCharAppend(kw, " ", c);
    NoCharAppend(kw + " ", Quote(text), c);
  }

  lemma QuoteAvoids(text: string, c: char)
    requires c != '"' && c != '\\' && c != 't' && c != 'n'
    requires NoChar(text, c)
    ensures NoChar(Quote(text), c)
  {
    EscapeKeepsAbsent(text, c);
    NoCharAppend("\"", Escape(text), c);
    NoCharAppend("\"" + Escape(text), "\"", c);
  }

  lemma {:induction false} ConcatAvoids(ps: seq<string>, c: char)
    requires NoChar(Concat(ps), c)
    ensures forall k :: 0 <= k < |ps| ==> NoChar(ps[k], c)
  {
    if ps != [] {
      NoCharSplit(ps[0], Concat(ps[1..]), c);
      ConcatAvoids(ps[1..], c);
    }
  }

  // ---------------------------------------------------------------------------
  // Occurrence comments

  /** Backslash path separators become forward slashes. */
  function NormalisePath(p: string): (r: string)
    ensures |r| == |p|
    ensures forall k :: 0 <= k < |p| ==> r[k] == if p[k] == '\\' then '/' else p[k]
  {
    if p == [] then [] else [if p[0] == '\\' then '/' else p[0]] + NormalisePath(p[1..])
  }

  predicate IsSeparator(c: char) {
    c == '/' || c == '\\'
  }

  /** Normalising twice is normalising once. */
  lemma NormaliseIdempotent(p: string)
    ensures NormalisePath(NormalisePath(p)) == NormalisePath(p)
  {
  }

  /** Two paths that differ only in which separator they use are written the
      same way, and a normalised path holds no backslash. */
  lemma NormaliseSeparators(p: string, q: string)
    requires |p| == |q|
    requires forall k :: 0 <= k < |p| ==> p[k] == q[k] || (IsSeparator(p[k]) && IsSeparator(q[k]))
    ensures NormalisePath(p) == NormalisePath(q)
    ensures NoChar(NormalisePath(p), '\\')
  {
  }

  /** One occurrence as written in a `#:` comment. */
  function RefText(o: Occurrence): string {
    NormalisePath(o.path) + ":" + NatToString(o.line)
  }

  /** The position of the last `:` of `t`, if there is one. */
  function LastColon(t: string): (r: Option<nat>)
    ensures r.Some? ==> r.value < |t| && t[r.value] == ':'
                        && forall k :: r.value < k < |t| ==> t[k] != ':'
    ensures r.None? ==> NoChar(t, ':')
    decreases |t|
  {
    if t == [] then None
    else if t[|t| - 1] == ':' then Some(|t| - 1)
    else LastColon(t[..|t| - 1])
  }

  /** Reads an occurrence back from its text: the path is everything before
      the last colon, the line the digits after it. */
  function ReadRef(t: string): Option<Occurrence> {
    match LastColon(t)
    case None => None
    case Some(i) =>
      var digits := t[i + 1..];
      if digits != [] && forall k :: 0 <= k < |digits| ==> IsDigit(digits[k]) then
        Some(Occurrence(t[..i], ParseDecimal(digits)))
      else None
  }

  /** Reading an occurrence's text gives its normalised path and its line. */
  lemma RefRoundTrip(o: Occurrence)
    ensures ReadRef(RefText(o)) == Some(Occurrence(NormalisePath(o.path), o.line))
  {
    var p := NormalisePath(o.path);
    var digits := NatToString(o.line);
    ReadRefParts(p + ":" + digits, p, digits);
    DecimalRoundTrip(o.line);
  }

  /** A text made of a path, a colon and a non-empty run of digits reads back
      as that path and the value of those digits. */
  lemma ReadRefParts(t: string, p: string, digits: string)
    requires t == p + ":" + digits
    requires digits != [] && forall k :: 0 <= k < |digits| ==> IsDigit(digits[k])
    ensures ReadRef(t) == Some(Occurrence(p, ParseDecimal(digits)))
  {
    var q := p + ":";
    assert t == q + digits;
    forall k | |q| <= k < |t|
      ensures t[k] != ':'
    {
      assert t[k] == digits[k - |q|];
    }
    LastColonAt(t, |p|);
    assert t[|q|..] == digits;
    assert t[..|p|] == p;
  }

  lemma LastColonAt(t: string, i: nat)
    requires i < |t| && t[i] == ':'
    requires forall k :: i < k < |t| ==> t[k] != ':'
    ensures LastColon(t) == Some(i)
  {
    var r := LastColon(t);
  }

  /** The references of an entry, each preceded by a space. */
  function RefList(refs: seq<Occurrence>): string {
    if refs == [] then [] else " " + RefText(refs[0]) + RefList(refs[1..])
  }

  function RefsLine(refs: seq<Occurrence>): (line: string)
    ensures |line| >= 2 && line[..2] == "#:"
  {
    "#:" + RefList(refs)
  }

  /** The references comment brings in only `#`, blanks, colons, forward
      slashes and digits beyond what the paths hold. */
  lemma {:induction false} RefListAvoids(refs: seq<Occurrence>, c: char)
    requires c != ' ' && c != ':' && c != '/' && !IsDigit(c)
    requires forall j :: 0 <= j < |refs| ==> NoChar(refs[j].path, c)
    ensures NoChar(RefList(refs), c)
  {
    if refs != [] {
      RefListAvoids(refs[1..], c);
      var o := refs[0];
      var p := NormalisePath(o.path);
      assert NoChar(p, c);
      NoCharAppend(p, ":", c);
      NoCharAppend(p + ":", NatToString(o.line), c);
      NoCharAppend(" ", RefText(o), c);
      NoCharAppend(" " + RefText(o), RefList(refs[1..]), c);
    }
  }

  /** The references comment ends with the last reference's line number. */
  lemma {:induction false} RefListEnds(refs: seq<Occurrence>)
    requires refs != []
    ensures var t := RefList(refs); |t| >= 1 && IsDigit(t[|t| - 1])
  {
    var t := RefText(refs[0]);
    var digits := NatToString(refs[0].line);
    assert t[|t| - 1] == digits[|digits| - 1];
    if |refs| > 1 {
      RefListEnds(refs[1..]);
    } else {
      assert RefList(refs) == " " + t + [];
    }
  }

  // ---------------------------------------------------------------------------
  // Entries

  /** The context lines of an entry, if it has a context. */
  function ContextLines(e: Entry): seq<string> {
    match e.key.context
    case Some(c) => StringLines("msgctxt", c)
    case None => []
  }

  /** The plural and its two empty translations, or the one empty translation. */
  function TranslationLines(e: Entry): seq<string> {
    match e.plural
    case Some(p) => StringLines("msgid_plural", p) + ["msgstr[0] \"\"", "msgstr[1] \"\""]
    case None => ["msgstr \"\""]
  }

  /** The lines of one catalog entry: the references, the context if any, the
      msgid, the translation lines, and a blank line. */
  function EntryLines(e: Entry): (lines: seq<string>)
    ensures |lines| >= 4 && lines[0] == RefsLine(e.refs) && lines[|lines| - 1] == ""
  {
    [RefsLine(e.refs)] + ContextLines(e) + StringLines("msgid", e.key.msgid) + TranslationLines(e) + [""]
  }

  /** An entry shows its references comment. */
  lemma EntryShowsRefs(e: Entry)
    ensures Contains(Unlines(EntryLines(e)), RefsLine(e.refs) + "\n")
  {
    LinesInFive([RefsLine(e.refs)], ContextLines(e), StringLines("msgid", e.key.msgid), TranslationLines(e), [""]);
    UnlinesOne(RefsLine(e.refs));
  }

  /** An entry shows the lines of its msgid. */
  lemma EntryShowsMsgid(e: Entry)
    ensures Contains(Unlines(EntryLines(e)), Unlines(StringLines("msgid", e.key.msgid)))
  {
    LinesInFive([RefsLine(e.refs)], ContextLines(e), StringLines("msgid", e.key.msgid), TranslationLines(e), [""]);
  }

  /** An entry with a context shows the lines of its context. */
  lemma EntryShowsContext(e: Entry)
    requires e.key.context.Some?
    ensures Contains(Unlines(EntryLines(e)), Unlines(StringLines("msgctxt", e.key.context.value)))
  {
    LinesInFive([RefsLine(e.refs)], ContextLines(e), StringLines("msgid", e.key.msgid), TranslationLines(e), [""]);
  }

  /** The translation lines of an entry with a plural start with the plural's lines. */
  lemma TranslationShowsPlural(e: Entry)
    requires e.plural.Some?
    ensures Contains(Unlines(TranslationLines(e)), Unlines(StringLines("msgid_plural", e.plural.value)))
  {
    var pl := StringLines("msgid_plural", e.plural.value);
    var empties := ["msgstr[0] \"\"", "msgstr[1] \"\""];
    assert TranslationLines(e) == [] + pl + empties;
    LinesContained([], pl, empties);
  }

  /** An entry with a plural shows the lines of its plural. */
  lemma EntryShowsPlural(e: Entry)
    requires e.plural.Some?
    ensures Contains(Unlines(EntryLines(e)), Unlines(StringLines("msgid_plural", e.plural.value)))
  {
    var tr := TranslationLines(e);
    LinesInFive([RefsLine(e.refs)], ContextLines(e), StringLines("msgid", e.key.msgid), tr, [""]);
    TranslationShowsPlural(e);
    ContainsTrans(Unlines(EntryLines(e)), Unlines(tr), Unlines(StringLines("msgid_plural", e.plural.value)));
  }

  // ---------------------------------------------------------------------------
  // Characters the template brings in

  /** The characters the template writes of its own accord: digits, and those
      of its keywords, quotes, escapes, `#:` comments, path separators, and the
      names and constant values of the core header fields. The line feed is
      not among them: it only ends lines. */
  predicate TemplateChar(c: char) {
    || IsDigit(c)
    || ('a' <= c <= 'z')
    || ('A' <= c <= 'W') || c == 'Y' || c == 'Z'
    || c == ' ' || c == '"' || c == '#' || c == '+' || c == '-' || c == '.'
    || c == '/' || c == ':' || c == ';' || c == '=' || c == '[' || c == '\\'
    || c == ']' || c == '_' || c == '(' || c == ')' || c == '!' || c == ','
  }

  /** `c` occurs in none of an entry's texts. */
  predicate TextsLack(e: Entry, c: char) {
    && NoChar(e.key.msgid, c)
    && (e.key.context.Some? ==> NoChar(e.key.context.value, c))
    && (e.plural.Some? ==> NoChar(e.plural.value, c))
  }

  /** `c` occurs in none of an entry's paths. */
  predicate PathsLack(e: Entry, c: char) {
    forall j :: 0 <= j < |e.refs| ==> NoChar(e.refs[j].path, c)
  }

  /** A keyword's lines lack `c` when its text does, and always lack the line feed. */
  lemma KeywordLinesLack(kw: string, text: string, c: char)
    requires !TemplateChar(c) && NoChar(kw, c)
    requires c == '\n' || NoChar(text, c)
    ensures LinesLack(StringLines(kw, text), c)
  {
    if c == '\n' {
      StringLinesSafe(kw, text);
    } else {
      StringLinesAvoid(kw, text, c);
    }
  }

  /** An entry's lines hold no character beyond the template's own and those
      of its paths and texts; the line feed they never hold. */
  lemma EntryLinesLack(e: Entry, c: char)
    requires !TemplateChar(c) && PathsLack(e, c)
    requires c == '\n' || TextsLack(e, c)
    ensures LinesLack(EntryLines(e), c)
  {
    RefsLineLack(e.refs, c);
    ContextLinesLack(e, c);
    KeywordLinesLack("msgid", e.key.msgid, c);
    TranslationLinesLack(e, c);
    LacksFive([RefsLine(e.refs)], ContextLines(e), StringLines("msgid", e.key.msgid), TranslationLines(e), [""], c);
  }

  lemma RefsLineLack(refs: seq<Occurrence>, c: char)
    requires !TemplateChar(c)
    requires forall j :: 0 <= j < |refs| ==> NoChar(refs[j].path, c)
    ensures LinesLack([RefsLine(refs)], c)
  {
    RefListAvoids(refs, c);
    NoCharAppend("#:", RefList(refs), c);
  }

  lemma ContextLinesLack(e: Entry, c: char)
    requires !TemplateChar(c)
    requires c == '\n' || TextsLack(e, c)
    ensures LinesLack(ContextLines(e), c)
  {
    if e.key.context.Some? {
      KeywordLinesLack("msgctxt", e.key.context.value, c);
    }
  }

  lemma TranslationLinesLack(e: Entry, c: char)
    requires !TemplateChar(c)
    requires c == '\n' || TextsLack(e, c)
    ensures LinesLack(TranslationLines(e), c)
  {
    if e.plural.Some? {
      KeywordLinesLack("msgid_plural", e.plural.value, c);
      EmptiesLack(c);
      LacksAppend(StringLines("msgid_plural", e.plural.value), ["msgstr[0] \"\"", "msgstr[1] \"\""], c);
    } else {
      EmptiesLack(c);
    }
  }

  lemma EmptiesLack(c: char)
    requires !TemplateChar(c)
    ensures LinesLack(["msgstr[0] \"\"", "msgstr[1] \"\""], c)
    ensures LinesLack(["msgstr \"\""], c)
  {
  }

  lemma LacksFive(a: seq<string>, b: seq<string>, d: seq<string>, e: seq<string>, f: seq<string>, c: char)
    requires LinesLack(a, c) && LinesLack(b, c) && LinesLack(d, c) && LinesLack(e, c) && LinesLack(f, c)
    ensures LinesLack(a + b + d + e + f, c)
  {
    LacksAppend(a, b, c);
    LacksAppend(a + b, d, c);
    LacksAppend(a + b + d, e, c);
    LacksAppend(a + b + d + e, f, c);
  }

  function CatalogLines(cat: Catalog): seq<string> {
    if cat == [] then [] else EntryLines(cat[0]) + CatalogLines(cat[1..])
  }

  /** The text of a catalog holds the text of each of its entries. */
  lemma {:induction false} CatalogShowsEntry(cat: Catalog, i: nat)
    requires i < |cat|
    ensures Contains(Unlines(CatalogLines(cat)), Unlines(EntryLines(cat[i])))
    decreases i
  {
    var rest := CatalogLines(cat[1..]);
    LinesInTwo(EntryLines(cat[0]), rest);
    if i > 0 {
      CatalogShowsEntry(cat[1..], i - 1);
      ContainsTrans(Unlines(CatalogLines(cat)), Unlines(rest), Unlines(EntryLines(cat[i])));
    }
  }

  lemma {:induction false} CatalogLinesLack(cat: Catalog, c: char)
    requires !TemplateChar(c)
    requires forall i :: 0 <= i < |cat| ==> PathsLack(cat[i], c) && (c == '\n' || TextsLack(cat[i], c))
    ensures LinesLack(CatalogLines(cat), c)
  {
    if cat != [] {
      EntryLinesLack(cat[0], c);
      CatalogLinesLack(cat[1..], c);
      LacksAppend(EntryLines(cat[0]), CatalogLines(cat[1..]), c);
    }
  }

  // ---------------------------------------------------------------------------
  // Header

  /** Which header fields are written: the full set with the caller's own
      fields after it, or only the required core. */
  datatype HeaderMode = Full(custom: seq<(string, string)>) | Minimal

  datatype Options = Options(domain: Option<string>, bugReport: string,
                             lastTranslator: string, team: string, headers: HeaderMode)

  /** One `Name: value` header field as a quoted line ending in `\n`. */
  function Field(name: string, value: string): (line: string)
    ensures line == Quote(name + ": " + value + "\n")
  {
    Quote(name + ": " + value + "\n")
  }

  const KeywordsList := "__;_e;_x:1,2c;_n:1,2;_nx:1,2,4c;_n_noop:1,2;_nx_noop:1,2,3c"

  /** The fields every header carries. */
  function CoreFields(opts: Options, date: string): seq<(string, string)> {
    [("Project-Id-Version", opts.domain.GetOr("PACKAGE VERSION")),
     ("Report-Msgid-Bugs-To", opts.bugReport),
     ("POT-Creation-Date", date),
     ("PO-Revision-Date", "YEAR-MO-DA HO:MI+ZONE"),
     ("Last-Translator", opts.lastTranslator),
     ("Language-Team", opts.team),
     ("MIME-Version", "1.0"),
     ("Content-Type", "text/plain; charset=UTF-8"),
     ("Content-Transfer-Encoding", "8bit")]
  }

  /** The fields the full header adds. */
  const PoeditFields: seq<(string, string)> :=
    [("Plural-Forms", "nplurals=2; plural=(n != 1);"),
     ("X-Poedit-Basepath", ".."),
     ("X-Poedit-SourceCharset", "UTF-8"),
     ("X-Poedit-KeywordsList", KeywordsList),
     ("X-Poedit-SearchPath-0", "."),
     ("X-Textdomain-Support", "yes")]

  /** The fields written after the core: none for a minimal header. */
  function ExtraFields(opts: Options): seq<(string, string)> {
    match opts.headers
    case Minimal => []
    case Full(custom) => PoeditFields + custom
  }

  function HeaderFields(opts: Options, date: string): seq<(string, string)> {
    CoreFields(opts, date) + ExtraFields(opts)
  }

  function FieldLines(fields: seq<(string, string)>): (lines: seq<string>)
    ensures |lines| == |fields|
    ensures forall k :: 0 <= k < |fields| ==> lines[k] == Field(fields[k].0, fields[k].1)
  {
    if fields == [] then [] else [Field(fields[0].0, fields[0].1)] + FieldLines(fields[1..])
  }

  /** The comment that opens the template. */
  function LicenseNote(package: string): (line: string)
    ensures |line| >= 1 && line[|line| - 1] == '.'
  {
    "# This file is distributed " + "under the same license as the " + package + " package."
  }

  /** The comment and the empty msgid whose translation holds the fields. */
  function Preamble(opts: Options): (lines: seq<string>)
    ensures |lines| == 3
  {
    [LicenseNote(opts.domain.GetOr("PACKAGE")), "msgid \"\"", "msgstr \"\""]
  }

  /** The preamble, one line per header field, and a blank line. */
  function HeaderLines(opts: Options, date: string): seq<string> {
    Preamble(opts) + FieldLines(HeaderFields(opts, date)) + [""]
  }

  /** The lines of the whole template. */
  function DocumentLines(opts: Options, date: string, cat: Catalog): seq<string> {
    HeaderLines(opts, date) + CatalogLines(cat)
  }

  /** The template as text: every line ended by a newline. */
  function Render(opts: Options, date: string, cat: Catalog): string {
    Unlines(DocumentLines(opts, date, cat))
  }

  /** The template holds the text of every catalog entry. */
  lemma RenderShowsEntry(opts: Options, date: string, cat: Catalog, i: nat)
    requires i < |cat|
    ensures Contains(Render(opts, date, cat), Unlines(EntryLines(cat[i])))
  {
    CatalogShowsEntry(cat, i);
    LinesInTwo(HeaderLines(opts, date), CatalogLines(cat));
    ContainsTrans(Render(opts, date, cat), Unlines(CatalogLines(cat)), Unlines(EntryLines(cat[i])));
  }

  /** The template holds every header field as one line of its own. */
  lemma RenderShowsField(opts: Options, date: string, cat: Catalog, k: nat)
    requires k < |HeaderFields(opts, date)|
    ensures var f := HeaderFields(opts, date)[k];
            Contains(Render(opts, date, cat), Field(f.0, f.1) + "\n")
  {
    var lines := FieldLines(HeaderFields(opts, date));
    var rest := [""] + CatalogLines(cat);
    assert DocumentLines(opts, date, cat) == Preamble(opts) + lines + rest;
    ShownBetween(Preamble(opts), lines, rest, k);
  }

  lemma ShownBetween(a: seq<string>, b: seq<string>, d: seq<string>, k: nat)
    requires k < |b|
    ensures Contains(Unlines(a + b + d), b[k] + "\n")
  {
    assert (a + b + d)[|a| + k] == b[k];
    LineShown(a + b + d, |a| + k);
  }

  /** A field is the quoted `name: value` followed by the escape of its newline. */
  lemma FieldForm(name: string, value: string)
    ensures Field(name, value) == "\"" + (Escape(name + ": " + value) + "\\n") + "\""
  {
    var x := name + ": " + value;
    assert Escape(x + "\n") == Escape(x) + "\\n" by {
      EscapeAppend(x, "\n");
      EscapeNewline();
    }
  }

  /** A field line shows its name, its value and the escaped newline after them. */
  lemma FieldShows(name: string, value: string)
    ensures Contains(Field(name, value), Escape(name + ": " + value) + "\\n")
  {
    FieldForm(name, value);
    ContainsMiddle("\"", Escape(name + ": " + value) + "\\n", "\"");
  }

  /** A field line ends with the escaped newline and the closing quote. */
  lemma FieldEnds(name: string, value: string)
    ensures var f := Field(name, value); |f| >= 3 && f[|f| - 3] == '\\' && f[|f| - 2] == 'n' && f[|f| - 1] == '"'
  {
    FieldForm(name, value);
  }

  /** A string that does not end with an escaped newline before a quote. */
  predicate NotFieldEnd(m: string) {
    |m| >= 3 && (m[|m| - 2] != 'n' || m[|m| - 3] != '\\')
  }

  lemma FieldNotEnds(name: string, value: string, m: string)
    requires NotFieldEnd(m)
    ensures !EndsWith(Field(name, value), m)
  {
    FieldEnds(name, value);
    if m[|m| - 2] != 'n' {
      NotEndsWith(Field(name, value), m, |m| - 2);
    } else {
      NotEndsWith(Field(name, value), m, |m| - 3);
    }
  }

  /** No header line ends with a quoted string whose last character is not a
      quote and that does not end with an escaped newline: the comment ends with
      a full stop, the empty strings with two quotes, the fields with the escaped
      newline. */
  lemma HeaderCount(opts: Options, date: string, m: string)
    requires NotFieldEnd(m) && m[|m| - 1] == '"' && m[|m| - 2] != '"'
    ensures CountEndingWith(HeaderLines(opts, date), m) == 0
  {
    PreambleCount(opts, m);
    HeaderCountOf(Preamble(opts), HeaderFields(opts, date), m);
  }

  lemma HeaderCountOf(top: seq<string>, fields: seq<(string, string)>, m: string)
    requires NotFieldEnd(m)
    requires CountEndingWith(top, m) == 0
    ensures CountEndingWith(top + FieldLines(fields) + [""], m) == 0
  {
    FieldsCount(fields, m);
    CountThree(top, FieldLines(fields), [""], m);
  }

  lemma PreambleCount(opts: Options, m: string)
    requires |m| >= 2 && m[|m| - 1] == '"' && m[|m| - 2] != '"'
    ensures CountEndingWith(Preamble(opts), m) == 0
  {
    TopCount(Preamble(opts), m);
  }

  lemma CountThree(a: seq<string>, b: seq<string>, d: seq<string>, m: string)
    requires CountEndingWith(a, m) == 0 && CountEndingWith(b, m) == 0 && CountEndingWith(d, m) == 0
    ensures CountEndingWith(a + b + d, m) == 0
  {
    CountEndingWithAppend(a, b, m);
    CountEndingWithAppend(a + b, d, m);
  }

  lemma TopCount(top: seq<string>, m: string)
    requires |m| >= 2 && m[|m| - 1] == '"' && m[|m| - 2] != '"'
    requires |top| == 3 && |top[0]| >= 1 && top[0][|top[0]| - 1] == '.'
    requires top[1] == "msgid \"\"" && top[2] == "msgstr \"\""
    ensures CountEndingWith(top, m) == 0
  {
    NotEndsWith(top[0], m, |m| - 1);
    NotEndsWith(top[1], m, |m| - 2);
    NotEndsWith(top[2], m, |m| - 2);
    CountNone(top, m);
  }

  lemma FieldsCount(fields: seq<(string, string)>, m: string)
    requires NotFieldEnd(m)
    ensures CountEndingWith(FieldLines(fields), m) == 0
  {
    var lines := FieldLines(fields);
    forall k | 0 <= k < |lines|
      ensures !EndsWith(lines[k], m)
    {
      FieldNotEnds(fields[k].0, fields[k].1, m);
    }
    CountNone(lines, m);
  }

  /** `c` occurs in no name or value of a list of fields. */
  predicate FieldsLack(fields: seq<(string, string)>, c: char) {
    forall k :: 0 <= k < |fields| ==> NoChar(fields[k].0, c) && NoChar(fields[k].1, c)
  }

  /** `c` occurs in none of the caller's header values. */
  predicate OptionsLack(opts: Options, date: string, c: char) {
    && NoChar(opts.domain.GetOr("PACKAGE VERSION"), c) && NoChar(opts.bugReport, c)
    && NoChar(opts.lastTranslator, c) && NoChar(opts.team, c) && NoChar(date, c)
    && FieldsLack(ExtraFields(opts), c)
  }

  lemma FieldLack(name: string, value: string, c: char)
    requires !TemplateChar(c)
    requires c == '\n' || (NoChar(name, c) && NoChar(value, c))
    ensures NoChar(Field(name, value), c)
  {
    var x := name + ": " + value + "\n";
    if c == '\n' {
      QuoteRoundTrip(x);
    } else {
      NoCharAppend(name, ": ", c);
      NoCharAppend(name + ": ", value, c);
      NoCharAppend(name + ": " + value, "\n", c);
      QuoteAvoids(x, c);
    }
  }

  lemma FieldLinesLack(fields: seq<(string, string)>, c: char)
    requires !TemplateChar(c)
    requires c == '\n' || FieldsLack(fields, c)
    ensures LinesLack(FieldLines(fields), c)
  {
    forall k | 0 <= k < |fields|
      ensures NoChar(FieldLines(fields)[k], c)
    {
      FieldLack(fields[k].0, fields[k].1, c);
    }
  }

  lemma CoreFieldsLack(opts: Options, date: string, c: char)
    requires !TemplateChar(c) && OptionsLack(opts, date, c)
    ensures FieldsLack(CoreFields(opts, date), c)
  {
    CoreNamesLack(c);
    CoreValuesLack(c);
  }

  /** The names of the core fields are written in the template's own characters. */
  lemma CoreNamesLack(c: char)
    requires !TemplateChar(c)
    ensures NoChar("Project-Id-Version", c) && NoChar("Report-Msgid-Bugs-To", c)
    ensures NoChar("POT-Creation-Date", c) && NoChar("PO-Revision-Date", c)
    ensures NoChar("Last-Translator", c) && NoChar("Language-Team", c)
    ensures NoChar("MIME-Version", c) && NoChar("Content-Type", c)
    ensures NoChar("Content-Transfer-Encoding", c)
  {
  }

  /** So are the constant values of the core fields. */
  lemma CoreValuesLack(c: char)
    requires !TemplateChar(c)
    ensures NoChar("YEAR-MO-DA HO:MI+ZONE", c) && NoChar("1.0", c)
    ensures NoChar("text/plain; charset=UTF-8", c) && NoChar("8bit", c)
  {
  }

  /** So is the preamble, apart from the package name it mentions. */
  lemma PreambleLack(opts: Options, c: char)
    requires !TemplateChar(c) && NoChar(opts.domain.GetOr("PACKAGE"), c)
    ensures LinesLack(Preamble(opts), c)
  {
    var d := opts.domain.GetOr("PACKAGE");
    NoCharAppend("# This file is distributed ", "under the same license as the ", c);
    NoCharAppend("# This file is distributed " + "under the same license as the ", d, c);
    NoCharAppend("# This file is distributed " + "under the same license as the " + d, " package.", c);
    assert NoChar("msgid \"\"", c) && NoChar("msgstr \"\"", c);
  }

  lemma HeaderLinesLack(opts: Options, date: string, c: char)
    requires !TemplateChar(c) && NoChar(opts.domain.GetOr("PACKAGE"), c)
    requires c == '\n' || OptionsLack(opts, date, c)
    ensures LinesLack(HeaderLines(opts, date), c)
  {
    var fields := HeaderFields(opts, date);
    if c != '\n' {
      CoreFieldsLack(opts, date, c);
      assert FieldsLack(fields, c);
    }
    FieldLinesLack(fields, c);
    PreambleLack(opts, c);
    LacksAppend(Preamble(opts), FieldLines(fields), c);
    LacksAppend(Preamble(opts) + FieldLines(fields), [""], c);
  }

  lemma DocumentLack(opts: Options, date: string, cat: Catalog, c: char)
    requires !TemplateChar(c) && NoChar(opts.domain.GetOr("PACKAGE"), c)
    requires forall i :: 0 <= i < |cat| ==> PathsLack(cat[i], c)
    requires c != '\n' ==> OptionsLack(opts, date, c) && forall i :: 0 <= i < |cat| ==> TextsLack(cat[i], c)
    ensures LinesLack(DocumentLines(opts, date, cat), c)
  {
    HeaderLinesLack(opts, date, c);
    CatalogLinesLack(cat, c);
    LacksAppend(HeaderLines(opts, date), CatalogLines(cat), c);
  }

  /** Every line of the template is free of raw newlines, as long as the domain
      and the paths are: texts with newlines are split over several lines. */
  lemma RenderLines(opts: Options, date: string, cat: Catalog)
    requires NoChar(opts.domain.GetOr("PACKAGE"), '\n')
    requires forall i :: 0 <= i < |cat| ==> PathsLack(cat[i], '\n')
    ensures LinesLack(DocumentLines(opts, date, cat), '\n')
  {
    DocumentLack(opts, date, cat, '\n');
  }

  /** A character the template never writes of its own accord appears in it
      only when one of its inputs brings it. */
  lemma RenderLacks(opts: Options, date: string, cat: Catalog, c: char)
    requires c != '\n' && !TemplateChar(c)
    requires NoChar(opts.domain.GetOr("PACKAGE"), c) && OptionsLack(opts, date, c)
    requires forall i :: 0 <= i < |cat| ==> PathsLack(cat[i], c) && TextsLack(cat[i], c)
    ensures NoChar(Render(opts, date, cat), c)
  {
    DocumentLack(opts, date, cat, c);
    NoCharUnlines(DocumentLines(opts, date, cat), c);
  }
}
