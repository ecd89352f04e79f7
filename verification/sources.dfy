/** The shapes of PHP source the test suite feeds the extractor. Each lemma
    here carries a written form — a quoted literal with whitespace around it,
    a call with its argument list, a file with one or two calls — to what the
    extractor makes of it, so that a scenario only has to name its pieces. */
module Sources {
  import opened Wrappers
  import opened Text
  import opened Literal
  import opened Scanner
  import opened Extractor
  import opened CatalogBuilder
  import opened Pot
  import opened Pipeline

  /** A double-quoted PHP literal around `body`. */
  function Dq(body: string): (tok: string)
    ensures |tok| == |body| + 2 && tok[0] == DQ && tok[|tok| - 1] == DQ
  {
    [DQ] + body + [DQ]
  }

  /** A single-quoted PHP literal around `body`. */
  function Sq(body: string): (tok: string)
    ensures |tok| == |body| + 2 && tok[0] == SQ && tok[|tok| - 1] == SQ
  {
    [SQ] + body + [SQ]
  }

  /** The call `name(args)` written between `pre` and `post`, its arguments
      separated by commas. */
  function CallText(pre: string, name: string, args: seq<string>, post: string): string
    requires |args| >= 1
  {
    pre + name + "(" + JoinArgs(args) + ")" + post
  }

  // ---------------------------------------------------------------------------
  // Literal bodies

  /** The body of a `q`-quoted literal that decodes to `text`. */
  predicate Reads(q: char, body: string, text: string) {
    ClosedBody(q, body) && (if q == SQ then DecodeSingle(body) else DecodeDouble(body)) == text
  }

  /** A body without a backslash or its own quote reads as itself. */
  lemma ReadsPlain(q: char, s: string)
    requires IsQuote(q) && NoChar(s, BS) && NoChar(s, q)
    ensures Reads(q, s, s)
  {
    ClosedPlain(q, s);
    DecodePlain(s);
  }

  /** A backslash before the literal's own quote reads as that quote. */
  lemma ReadsEscape(q: char)
    requires IsQuote(q)
    ensures Reads(q, [BS, q], [q])
  {
    assert [BS, q][2..] == [];
  }

  /** Bodies read piece by piece. */
  lemma ReadsAppend(q: char, a: string, ta: string, b: string, tb: string)
    requires IsQuote(q) && Reads(q, a, ta) && Reads(q, b, tb)
    ensures Reads(q, a + b, ta + tb)
  {
    ClosedAppend(q, a, b);
    if q == SQ {
      DecodeSingleAppend(a, b);
    } else {
      DecodeDoubleAppend(a, b);
    }
  }

  // ---------------------------------------------------------------------------
  // Arguments

  /** One argument of a call: it hides no separator, holds no underscore, and
      is cleaned to `tok`. */
  predicate ArgIs(arg: string, tok: string) {
    Separable(arg) && Clean(arg) == tok && NoChar(arg, '_')
  }

  /** Whitespace holds no other character. */
  lemma SpaceFree(w: string, c: char)
    requires AllSpace(w) && !IsSpace(c)
    ensures NoChar(w, c)
  {
  }

  /** `w1 tok w2` holds no underscore when none of its pieces does. */
  lemma ThreeFree(w1: string, tok: string, w2: string)
    requires AllSpace(w1) && AllSpace(w2) && NoChar(tok, '_')
    ensures NoChar(w1 + tok + w2, '_')
    ensures w2 == [] ==> w1 + tok + w2 == w1 + tok
  {
    SpaceFree(w1, '_');
    SpaceFree(w2, '_');
    NoCharAppend(w1, tok, '_');
    NoCharAppend(w1 + tok, w2, '_');
  }

  /** A quoted literal with whitespace around it is one argument standing for
      the text its body reads as. */
  lemma QuotedArg(w1: string, q: char, body: string, text: string, w2: string)
    requires IsQuote(q) && AllSpace(w1) && AllSpace(w2)
    requires Reads(q, body, text) && NoChar(body, '_')
    ensures ArgIs(w1 + ([q] + body + [q]) + w2, [q] + body + [q])
    ensures w2 == [] ==> ArgIs(w1 + ([q] + body + [q]), [q] + body + [q])
    ensures Unquote([q] + body + [q]) == Some(text)
  {
    var tok := [q] + body + [q];
    assert Body(tok) == body;
    LiteralArg(w1, tok, w2);
    NoCharAppend([q], body, '_');
    NoCharAppend([q] + body, [q], '_');
    ThreeFree(w1, tok, w2);
  }

  /** The same for a literal that needs no decoding, which also stands for its
      body as a domain. */
  lemma PlainQuoted(w1: string, q: char, body: string, w2: string)
    requires IsQuote(q) && AllSpace(w1) && AllSpace(w2)
    requires NoChar(body, BS) && NoChar(body, q) && NoChar(body, '_')
    ensures ArgIs(w1 + ([q] + body + [q]) + w2, [q] + body + [q])
    ensures w2 == [] ==> ArgIs(w1 + ([q] + body + [q]), [q] + body + [q])
    ensures Unquote([q] + body + [q]) == Some(body) && DomainToken([q] + body + [q]) == body
  {
    ReadsPlain(q, body);
    QuotedArg(w1, q, body, body, w2);
    PlainLiteral(q, body);
  }

  /** A bare token — a number, a variable, a constant — is one argument
      standing for itself, and is kept verbatim as a domain. */
  lemma BareArg(w1: string, tok: string, w2: string)
    requires AllSpace(w1) && AllSpace(w2) && tok != [] && Trimmed(tok)
    requires NoChar(tok, '(') && NoChar(tok, ')') && NoChar(tok, SQ) && NoChar(tok, DQ)
    requires NoChar(tok, ',') && NoChar(tok, '_')
    ensures ArgIs(w1 + tok + w2, tok)
    ensures w2 == [] ==> ArgIs(w1 + tok, tok)
    ensures DomainToken(tok) == tok
  {
    PlainArg(w1, tok, w2);
    ThreeFree(w1, tok, w2);
  }

  /** A quoted literal inside a pair of parentheses is one argument standing
      for the literal. */
  lemma WrappedQuoted(w1: string, w0: string, q: char, body: string, text: string, w2: string)
    requires IsQuote(q) && AllSpace(w1) && AllSpace(w0) && AllSpace(w2)
    requires Reads(q, body, text) && NoChar(body, '_')
    ensures ArgIs(w1 + "(" + (w0 + ([q] + body + [q])) + ")" + w2, [q] + body + [q])
    ensures Unquote([q] + body + [q]) == Some(text)
  {
    QuotedArg(w0, q, body, text, []);
    WrappedClean(w1, w0, [q] + body + [q], w2);
    WrappedFree(w1, w0 + ([q] + body + [q]), w2);
  }

  lemma WrappedClean(w1: string, w0: string, tok: string, w2: string)
    requires AllSpace(w1) && AllSpace(w2) && AllSpace(w0) && Trimmed(tok) && Separable(w0 + tok)
    ensures Separable(w1 + "(" + (w0 + tok) + ")" + w2)
    ensures Clean(w1 + "(" + (w0 + tok) + ")" + w2) == tok
  {
    WrappedArg(w1, w0 + tok, w2);
    TrimExact(w0, tok, []);
    assert w0 + tok == w0 + tok + [];
  }

  lemma WrappedFree(w1: string, x: string, w2: string)
    requires AllSpace(w1) && AllSpace(w2) && NoChar(x, '_')
    ensures NoChar(w1 + "(" + x + ")" + w2, '_')
  {
    NoCharAppend("(", x, '_');
    NoCharAppend("(" + x, ")", '_');
    ThreeFree(w1, "(" + x + ")", w2);
    assert w1 + "(" + x + ")" + w2 == w1 + ("(" + x + ")") + w2;
  }

  // ---------------------------------------------------------------------------
  // Argument lists and calls

  /** Joined pieces lack what every piece lacks. */
  lemma {:induction false} JoinFree(parts: seq<string>, c: char)
    requires |parts| >= 1 && c != ','
    requires forall k :: 0 <= k < |parts| ==> NoChar(parts[k], c)
    ensures NoChar(JoinArgs(parts), c)
    decreases |parts|
  {
    if |parts| > 1 {
      JoinFree(parts[1..], c);
      NoCharAppend(parts[0], ",", c);
      NoCharAppend(parts[0] + ",", JoinArgs(parts[1..]), c);
    }
  }

  /** Argument lists of two to five arguments, written out. */
  lemma JoinTwo(a: string, b: string)
    ensures JoinArgs([a, b]) == a + "," + b
  {
    assert [a, b][1..] == [b];
  }

  lemma JoinThree(a: string, b: string, c: string)
    ensures JoinArgs([a, b, c]) == a + "," + (b + "," + c)
  {
    assert [a, b, c][1..] == [b, c];
    JoinTwo(b, c);
  }

  lemma JoinFour(a: string, b: string, c: string, d: string)
    ensures JoinArgs([a, b, c, d]) == a + "," + (b + "," + (c + "," + d))
  {
    assert [a, b, c, d][1..] == [b, c, d];
    JoinThree(b, c, d);
  }

  lemma JoinFive(a: string, b: string, c: string, d: string, e: string)
    ensures JoinArgs([a, b, c, d, e]) == a + "," + (b + "," + (c + "," + (d + "," + e)))
  {
    assert [a, b, c, d, e][1..] == [b, c, d, e];
    JoinFour(b, c, d, e);
  }

  /** Arguments each cleaning to its token, gathered into lists. */
  lemma ArgsTwo(a0: string, a1: string, t0: string, t1: string)
    requires ArgIs(a0, t0) && ArgIs(a1, t1)
    ensures forall k :: 0 <= k < |[a0, a1]| ==> ArgIs([a0, a1][k], [t0, t1][k])
  {
  }

  lemma ArgsThree(a0: string, a1: string, a2: string, t0: string, t1: string, t2: string)
    requires ArgIs(a0, t0) && ArgIs(a1, t1) && ArgIs(a2, t2)
    ensures forall k :: 0 <= k < |[a0, a1, a2]| ==> ArgIs([a0, a1, a2][k], [t0, t1, t2][k])
  {
  }

  lemma ArgsFour(a0: string, a1: string, a2: string, a3: string, t0: string, t1: string, t2: string, t3: string)
    requires ArgIs(a0, t0) && ArgIs(a1, t1) && ArgIs(a2, t2) && ArgIs(a3, t3)
    ensures forall k :: 0 <= k < |[a0, a1, a2, a3]| ==> ArgIs([a0, a1, a2, a3][k], [t0, t1, t2, t3][k])
  {
  }

  lemma ArgsFive(a0: string, a1: string, a2: string, a3: string, a4: string,
                 t0: string, t1: string, t2: string, t3: string, t4: string)
    requires ArgIs(a0, t0) && ArgIs(a1, t1) && ArgIs(a2, t2) && ArgIs(a3, t3) && ArgIs(a4, t4)
    ensures forall k :: 0 <= k < |[a0, a1, a2, a3, a4]| ==> ArgIs([a0, a1, a2, a3, a4][k], [t0, t1, t2, t3, t4][k])
  {
  }

  /** Arguments written out with commas between them split back into their
      cleaned tokens. */
  lemma ArgsSplit(args: seq<string>, toks: seq<string>)
    requires |args| == |toks| >= 1
    requires forall k :: 0 <= k < |args| ==> ArgIs(args[k], toks[k])
    ensures NoChar(JoinArgs(args), '_') && Clear(0, JoinArgs(args), ')')
    ensures SplitArgs(JoinArgs(args)) == toks
  {
    JoinFree(args, '_');
    ArgList(args);
  }

  /** What may stand before a call: nothing that continues its name, no
      underscore, no line feed. */
  predicate Opening(pre: string) {
    (pre == [] || !IdentChar(pre[|pre| - 1])) && NoChar(pre, '_') && NoChar(pre, '\n')
  }

  /** Text without line feeds lies on one line. */
  lemma {:induction false} FlatNewlines(s: string)
    requires NoChar(s, '\n')
    ensures Newlines(s) == 0
    decreases |s|
  {
    if |s| > 0 {
      FlatNewlines(s[1..]);
    }
  }

  /** A file whose only call is `name(args)` on its first line yields the one
      record those arguments make. */
  lemma CallExtracted(path: string, src: string, pre: string, name: string, args: seq<string>, post: string,
                      toks: seq<string>, roles: seq<Role>, rec: Record)
    requires |args| >= 1 && src == pre + name + "(" + JoinArgs(args) + ")" + post
    requires Signature(name) == Some(roles)
    requires Opening(pre) && NoChar(post, '_')
    requires |args| == |toks| >= 1
    requires forall k :: 0 <= k < |args| ==> ArgIs(args[k], toks[k])
    requires MakeRecord(roles, toks, path, 1) == Some(rec)
    ensures ExtractAll([SourceFile(path, src)]) == [rec]
  {
    var inner := JoinArgs(args);
    var text := src;
    ArgsSplit(args, toks);
    CallFound(pre, name, args, post, roles);
    var c := Call(roles, inner, 1);
    OneFile(SourceFile(path, text));
    RecordsOne(path, c);
    assert Interpret(path, c) == Some(rec);
  }

  /** Where the only call of a file is found. */
  lemma CallFound(pre: string, name: string, args: seq<string>, post: string, roles: seq<Role>)
    requires Signature(name) == Some(roles)
    requires Opening(pre) && NoChar(post, '_') && |args| >= 1
    requires NoChar(JoinArgs(args), '_') && Clear(0, JoinArgs(args), ')')
    ensures CallsFrom(pre + name + "(" + JoinArgs(args) + ")" + post, 0) == [Call(roles, JoinArgs(args), 1)]
  {
    var inner := JoinArgs(args);
    OnlyCall(pre, name, inner, post, roles);
    FlatNewlines(pre);
    assert Call(roles, inner, 1 + Newlines(pre)) == Call(roles, inner, 1);
  }

  /** A file with two calls on its first line yields the records of both, in
      order. */
  lemma TwoCallsExtracted(path: string, pre: string, name1: string, args1: seq<string>, mid: string,
                          name2: string, args2: seq<string>, post: string,
                          toks1: seq<string>, toks2: seq<string>, roles1: seq<Role>, roles2: seq<Role>,
                          rec1: Record, rec2: Record)
    requires Signature(name1) == Some(roles1) && Signature(name2) == Some(roles2)
    requires Opening(pre) && Opening(mid) && NoChar(post, '_')
    requires |args1| == |toks1| >= 1 && |args2| == |toks2| >= 1
    requires forall k :: 0 <= k < |args1| ==> ArgIs(args1[k], toks1[k]) && NoChar(args1[k], '\n')
    requires forall k :: 0 <= k < |args2| ==> ArgIs(args2[k], toks2[k])
    requires MakeRecord(roles1, toks1, path, 1) == Some(rec1)
    requires MakeRecord(roles2, toks2, path, 1) == Some(rec2)
    ensures ExtractAll([SourceFile(path, pre + name1 + "(" + JoinArgs(args1) + ")"
                                         + (mid + name2 + "(" + JoinArgs(args2) + ")" + post))]) == [rec1, rec2]
  {
    var inner1, inner2 := JoinArgs(args1), JoinArgs(args2);
    var s := pre + name1 + "(" + inner1 + ")" + (mid + name2 + "(" + inner2 + ")" + post);
    ArgsSplit(args1, toks1);
    ArgsSplit(args2, toks2);
    JoinFree(args1, '\n');
    TwoCallsFound(pre, name1, inner1, mid, name2, inner2, post, roles1, roles2);
    OneFile(SourceFile(path, s));
    RecordsTwo(path, Call(roles1, inner1, 1), Call(roles2, inner2, 1));
  }

  /** Where the two calls of such a file are found. */
  lemma TwoCallsFound(pre: string, name1: string, inner1: string, mid: string, name2: string, inner2: string,
                      post: string, roles1: seq<Role>, roles2: seq<Role>)
    requires Signature(name1) == Some(roles1) && Signature(name2) == Some(roles2)
    requires Opening(pre) && Opening(mid) && NoChar(post, '_')
    requires Clear(0, inner1, ')') && NoChar(inner1, '_') && NoChar(inner1, '\n')
    requires Clear(0, inner2, ')') && NoChar(inner2, '_')
    ensures CallsFrom(pre + name1 + "(" + inner1 + ")" + (mid + name2 + "(" + inner2 + ")" + post), 0)
            == [Call(roles1, inner1, 1), Call(roles2, inner2, 1)]
  {
    var x := pre + name1 + "(" + inner1 + ")";
    var y := mid + name2 + "(" + inner2 + ")" + post;
    BothCalls(x + y, x, y, pre, name1, inner1, mid, name2, inner2, post, roles1, roles2);
    FirstLines(x + y, x, pre, name1, inner1, mid);
  }

  /** Both calls of such a file start on its first line. */
  lemma FirstLines(s: string, x: string, pre: string, name1: string, inner1: string, mid: string)
    requires x == pre + name1 + "(" + inner1 + ")" && |x| + |mid| <= |s| && s[..|x| + |mid|] == x + mid
    requires Signature(name1).Some?
    requires NoChar(pre, '\n') && NoChar(mid, '\n') && NoChar(inner1, '\n')
    ensures LineAt(s, |pre|) == 1 && LineAt(s, |x| + |mid|) == 1
  {
    assert s[..|pre|] == pre;
    FlatNewlines(pre);
    FirstLineFree(pre, name1, inner1, mid);
    FlatNewlines(x + mid);
  }

  /** The first call and what follows it up to the second hold no line feed. */
  lemma FirstLineFree(pre: string, name1: string, inner1: string, mid: string)
    requires Signature(name1).Some?
    requires NoChar(pre, '\n') && NoChar(mid, '\n') && NoChar(inner1, '\n')
    ensures NoChar(pre + name1 + "(" + inner1 + ")" + mid, '\n')
  {
    SignatureShape(name1);
    NoCharAppend(pre, name1, '\n');
    NoCharAppend(pre + name1, "(", '\n');
    NoCharAppend(pre + name1 + "(", inner1, '\n');
    NoCharAppend(pre + name1 + "(" + inner1, ")", '\n');
    NoCharAppend(pre + name1 + "(" + inner1 + ")", mid, '\n');
  }

  // ---------------------------------------------------------------------------
  // The records of each translation function

  lemma RecordOfText(a: string, d: string, text: string, path: string, line: nat)
    requires Unquote(a) == Some(text)
    ensures MakeRecord([Single, Domain], [a, d], path, line)
            == Some(Record(text, None, None, Some(DomainToken(d)), path, line))
  {
  }

  lemma RecordOfContext(a: string, c: string, d: string, text: string, ctx: string, path: string, line: nat)
    requires Unquote(a) == Some(text) && Unquote(c) == Some(ctx)
    ensures MakeRecord([Single, Context, Domain], [a, c, d], path, line)
            == Some(Record(text, None, Some(ctx), Some(DomainToken(d)), path, line))
  {
  }

  lemma RecordOfPlural(a: string, p: string, n: string, d: string, text: string, plural: string,
                       path: string, line: nat)
    requires Unquote(a) == Some(text) && Unquote(p) == Some(plural)
    ensures MakeRecord([Single, Plural, Count, Domain], [a, p, n, d], path, line)
            == Some(Record(text, Some(plural), None, Some(DomainToken(d)), path, line))
  {
  }

  lemma RecordOfPluralContext(a: string, p: string, n: string, c: string, d: string,
                              text: string, plural: string, ctx: string, path: string, line: nat)
    requires Unquote(a) == Some(text) && Unquote(p) == Some(plural) && Unquote(c) == Some(ctx)
    ensures MakeRecord([Single, Plural, Count, Context, Domain], [a, p, n, c, d], path, line)
            == Some(Record(text, Some(plural), Some(ctx), Some(DomainToken(d)), path, line))
  {
  }

  lemma RecordOfNoop(a: string, p: string, d: string, text: string, plural: string, path: string, line: nat)
    requires Unquote(a) == Some(text) && Unquote(p) == Some(plural)
    ensures MakeRecord([Single, Plural, Domain], [a, p, d], path, line)
            == Some(Record(text, Some(plural), None, Some(DomainToken(d)), path, line))
  {
  }

  lemma RecordOfNoopContext(a: string, p: string, c: string, d: string, text: string, plural: string,
                            ctx: string, path: string, line: nat)
    requires Unquote(a) == Some(text) && Unquote(p) == Some(plural) && Unquote(c) == Some(ctx)
    ensures MakeRecord([Single, Plural, Context, Domain], [a, p, c, d], path, line)
            == Some(Record(text, Some(plural), Some(ctx), Some(DomainToken(d)), path, line))
  {
  }

  // ---------------------------------------------------------------------------
  // Catalogs of one key

  /** One admitted record makes a catalog of one entry. */
  lemma CatalogOne(r: Record, filter: Option<string>)
    requires Admits(filter, r)
    ensures Build([r], filter) == [Entry(KeyOf(r), r.plural, [OccurrenceOf(r)])]
  {
    var e := Entry(KeyOf(r), r.plural, [OccurrenceOf(r)]);
    assert Ingest([], r, filter) == [] + [e] == [e];
    assert [r][1..] == [];
    assert Build([r], filter) == IngestAll([e], [], filter);
  }

  /** A second record with the same key and the same place adds only its
      plural, if the first had none. */
  lemma CatalogSameKey(r1: Record, r2: Record, filter: Option<string>)
    requires Admits(filter, r1) && Admits(filter, r2)
    requires KeyOf(r1) == KeyOf(r2) && OccurrenceOf(r1) == OccurrenceOf(r2) && r1.plural.None?
    ensures Build([r1, r2], filter) == [Entry(KeyOf(r1), r2.plural, [OccurrenceOf(r1)])]
  {
    var e := Entry(KeyOf(r1), r1.plural, [OccurrenceOf(r1)]);
    var e' := Entry(KeyOf(r1), r2.plural, [OccurrenceOf(r1)]);
    assert Ingest([], r1, filter) == [] + [e] == [e];
    assert Find([e], KeyOf(r2)) == Some(0);
    assert Merge(e, r2) == e';
    assert Ingest([e], r2, filter) == [e'];
    assert [r1, r2][1..] == [r2];
    assert [r2][1..] == [];
    assert Build([r1, r2], filter) == IngestAll([e], [r2], filter);
    assert IngestAll([e], [r2], filter) == IngestAll([e'], [], filter);
  }

  // ---------------------------------------------------------------------------
  // What the template of a one-record run shows

  /** The msgid line of the only record of a run. */
  lemma ShowsMsgidOf(opts: Options, date: string, files: seq<SourceFile>, r: Record, text: string)
    requires r in ExtractAll(files) && Admits(opts.domain, r)
    requires r.msgid == text && Plain(text)
    ensures IndexOf(Generate(opts, date, files), "msgid \"" + text + "\"\n") != -1
  {
    GenerateShowsMsgid(opts, date, files, r);
    Heads();
    ShowsLine(Generate(opts, date, files), "msgid", "msgid \"", text);
  }

  /** The keyword heads of the lines a template shows: the keyword, a blank and
      the opening quote. */
  lemma Heads()
    ensures "msgid \"" == "msgid" + " \""
    ensures "msgctxt \"" == "msgctxt" + " \""
    ensures "msgid_plural \"" == "msgid_plural" + " \""
    ensures "msgid \"\"" == "msgid" + " \"\""
  {
  }

  /** The msgctxt line of an admitted record with a context. */
  lemma ShowsContextOf(opts: Options, date: string, files: seq<SourceFile>, r: Record, ctx: string)
    requires r in ExtractAll(files) && Admits(opts.domain, r)
    requires r.context == Some(ctx) && Plain(ctx)
    ensures IndexOf(Generate(opts, date, files), "msgctxt \"" + ctx + "\"\n") != -1
  {
    GenerateShowsContext(opts, date, files, r);
    Heads();
    ShowsLine(Generate(opts, date, files), "msgctxt", "msgctxt \"", ctx);
  }

  /** The msgid_plural line of the only record of a run. */
  lemma ShowsPluralOf(opts: Options, date: string, files: seq<SourceFile>, r: Record, plural: string)
    requires ExtractAll(files) == [r] && Admits(opts.domain, r)
    requires r.plural == Some(plural) && Plain(plural)
    ensures IndexOf(Generate(opts, date, files), "msgid_plural \"" + plural + "\"\n") != -1
  {
    assert [r][..0] == [];
    assert FirstPlural([r], opts.domain, KeyOf(r)) == Some(plural);
    GenerateShowsPlural(opts, date, files, KeyOf(r), plural);
    Heads();
    ShowsLine(Generate(opts, date, files), "msgid_plural", "msgid_plural \"", plural);
  }

  /** The msgid line of a record whose text ends with a quoted word: both
      double quotes come out escaped. */
  lemma ShowsQuotedMsgid(opts: Options, date: string, files: seq<SourceFile>, r: Record, a: string, b: string)
    requires r in ExtractAll(files) && Admits(opts.domain, r)
    requires r.msgid == a + [DQ] + b + [DQ] && Plain(a) && Plain(b)
    ensures IndexOf(Generate(opts, date, files), "msgid \"" + (a + "\\\"" + b + "\\\"") + "\"\n") != -1
  {
    GenerateShowsMsgid(opts, date, files, r);
    NoCharAppend(a, [DQ], '\n');
    NoCharAppend(a + [DQ], b, '\n');
    NoCharAppend(a + [DQ] + b, [DQ], '\n');
    Heads();
    ShowsEscaped(Generate(opts, date, files), "msgid", "msgid \"", r.msgid);
    EscapeQuoted(a, b);
  }

  /** The msgid lines of a record whose text spans two lines. */
  lemma ShowsTwoLineMsgid(opts: Options, date: string, files: seq<SourceFile>, r: Record, a: string, b: string)
    requires r in ExtractAll(files) && Admits(opts.domain, r)
    requires r.msgid == a + "\n" + b && Plain(a) && Plain(b)
    ensures IndexOf(Generate(opts, date, files), Unlines(["msgid \"\"", "\"" + a + "\\n\"", "\"" + b + "\""])) != -1
  {
    GenerateShowsMsgid(opts, date, files, r);
    ShowsTwoLines(Generate(opts, date, files), "msgid", a, b);
    Heads();
  }

  /** The references comment of the only record of a run. */
  lemma ShowsRefsOf(opts: Options, date: string, files: seq<SourceFile>, r: Record)
    requires ExtractAll(files) == [r] && Admits(opts.domain, r)
    ensures IndexOf(Generate(opts, date, files), "#: " + NormalisePath(r.path) + ":" + NatToString(r.line)) != -1
  {
    var e := Entry(KeyOf(r), r.plural, [OccurrenceOf(r)]);
    CatalogOne(r, opts.domain);
    assert CatalogOf(opts, files) == [e];
    RenderShowsEntry(opts, date, [e], 0);
    EntryShowsRefs(e);
    var line := RefsLine(e.refs);
    RefsLineOne(OccurrenceOf(r));
    ContainsMiddle("", line, "\n");
    assert "" + line + "\n" == line + "\n";
    ContainsTrans(Unlines(EntryLines(e)), line + "\n", line);
    ContainsTrans(Generate(opts, date, files), Unlines(EntryLines(e)), line);
  }

  /** The references comment of a single occurrence. */
  lemma RefsLineOne(o: Occurrence)
    ensures RefsLine([o]) == "#: " + NormalisePath(o.path) + ":" + NatToString(o.line)
  {
    var t := RefText(o);
    assert [o][1..] == [];
    assert RefList([o]) == " " + t;
    assert "#:" + " " == "#: ";
    assert "#:" + (" " + t) == "#: " + t;
  }

  /** A header field whose name and value need no escaping appears as
      `name: value` followed by an escaped newline. */
  lemma ShowsField(opts: Options, date: string, files: seq<SourceFile>, k: nat)
    requires k < |HeaderFields(opts, date)|
    requires var f := HeaderFields(opts, date)[k]; Plain(f.0 + ": " + f.1)
    ensures var f := HeaderFields(opts, date)[k];
            IndexOf(Generate(opts, date, files), f.0 + ": " + f.1 + "\\n") != -1
  {
    var f := HeaderFields(opts, date)[k];
    var doc := Generate(opts, date, files);
    RenderShowsField(opts, date, CatalogOf(opts, files), k);
    FieldShows(f.0, f.1);
    EscapePlain(f.0 + ": " + f.1);
    ContainsStart(Field(f.0, f.1), "\n", f.0 + ": " + f.1 + "\\n");
    ContainsTrans(doc, Field(f.0, f.1) + "\n", f.0 + ": " + f.1 + "\\n");
  }

  /** In the template of a one-entry catalog, a line ending in a quoted string
      that is not the header's is counted once per line of the entry ending
      with it. */
  lemma CountOneEntry(opts: Options, date: string, e: Entry, m: string)
    requires NoChar(opts.domain.GetOr("PACKAGE"), '\n') && PathsLack(e, '\n')
    requires NoChar(m, '\n') && NotFieldEnd(m) && m[|m| - 1] == '"' && m[|m| - 2] != '"'
    ensures NumberOfMatches(m + "\n", Render(opts, date, [e])) == CountEndingWith(EntryLines(e), m)
  {
    OneEntryLines(opts, date, e);
    HeaderCount(opts, date, m);
    CountAfter(HeaderLines(opts, date), EntryLines(e), m);
  }

  /** Lines that hold no match add nothing to the count. */
  lemma CountAfter(top: seq<string>, rest: seq<string>, m: string)
    requires NoChar(m, '\n') && LinesLack(top + rest, '\n') && CountEndingWith(top, m) == 0
    ensures NumberOfMatches(m + "\n", Unlines(top + rest)) == CountEndingWith(rest, m)
  {
    MatchesCountLines(top + rest, m);
    CountEndingWithAppend(top, rest, m);
  }

  /** The lines of a one-entry template: the header's, then the entry's, none
      holding a raw newline. */
  lemma OneEntryLines(opts: Options, date: string, e: Entry)
    requires NoChar(opts.domain.GetOr("PACKAGE"), '\n') && PathsLack(e, '\n')
    ensures DocumentLines(opts, date, [e]) == HeaderLines(opts, date) + EntryLines(e)
    ensures LinesLack(DocumentLines(opts, date, [e]), '\n')
  {
    assert [e][1..] == [];
    assert CatalogLines([e]) == EntryLines(e);
    assert forall i :: 0 <= i < |[e]| ==> [e][i] == e;
    RenderLines(opts, date, [e]);
  }

  // ---------------------------------------------------------------------------
  // Lines of the template

  /** A keyword line for a text with nothing to escape. */
  lemma ShowsLine(doc: string, kw: string, head: string, text: string)
    requires Contains(doc, Unlines(StringLines(kw, text)))
    requires Plain(text) && head == kw + " \""
    ensures IndexOf(doc, head + text + "\"\n") != -1
  {
    OneLine(kw, text);
    EscapePlain(text);
  }

  /** A keyword line for a one-line text, escaped. */
  lemma ShowsEscaped(doc: string, kw: string, head: string, text: string)
    requires Contains(doc, Unlines(StringLines(kw, text)))
    requires NoChar(text, '\n') && head == kw + " \""
    ensures IndexOf(doc, head + Escape(text) + "\"\n") != -1
  {
    OneLine(kw, text);
  }

  /** A two-line text is written as an empty keyword string followed by one
      quoted line per piece, the first ending in an escaped line feed. */
  lemma ShowsTwoLines(doc: string, kw: string, a: string, b: string)
    requires Contains(doc, Unlines(StringLines(kw, a + "\n" + b)))
    requires NoChar(a, '\n') && NoChar(b, '\n') && Plain(a) && Plain(b)
    ensures IndexOf(doc, Unlines([kw + " \"\"", "\"" + a + "\\n\"", "\"" + b + "\""])) != -1
  {
    TwoLines(kw, a, b);
    EscapePlain(a);
    EscapePlain(b);
  }

  /** Escaping a text that holds a double quote. */
  lemma EscapeQuoted(a: string, b: string)
    requires Plain(a) && Plain(b)
    ensures Escape(a + [DQ] + b + [DQ]) == a + "\\\"" + b + "\\\""
  {
    EscapeAppend(a, [DQ]);
    EscapeAppend(a + [DQ], b);
    EscapeAppend(a + [DQ] + b, [DQ]);
    EscapePlain(a);
    EscapePlain(b);
    assert Escape([DQ]) == "\\\"";
  }

  /** A needle with a character the document lacks is not found. */
  lemma AbsentNeedle(doc: string, needle: string, k: nat)
    requires k < |needle| && NoChar(doc, needle[k])
    ensures IndexOf(doc, needle) == -1
  {
    AbsentChar(doc, needle, k);
  }
}
