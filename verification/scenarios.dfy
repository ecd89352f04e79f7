/** The behaviour the test suite asserts, test by test. Each test gets a lemma
    that states its assertion for every text of the same shape — the source
    written with the test's calls, quotes and whitespace, the texts and the
    domain left free — and an instance with the test's own values. The file
    path, where the test gives none, and the creation date stay free: the
    assertions hold whatever they are. */
module Scenarios {
  import opened Wrappers
  import opened Text
  import opened Literal
  import opened Scanner
  import opened Extractor
  import opened CatalogBuilder
  import opened Pot
  import opened Pipeline
  import opened Sources

  /** The texts and domains the generic lemmas accept: they can be written
      between quotes of either kind and in the catalog as they are. */
  predicate Simple(s: string) {
    NoChar(s, BS) && NoChar(s, DQ) && NoChar(s, SQ) && NoChar(s, '_') && Plain(s)
  }

  /** The pieces around the calls of the test sources. */
  lemma Openings()
    ensures Opening("<?php ") && Opening("<?php sprintf( ") && Opening("; ")
    ensures NoChar("; ?>", '_') && NoChar(";  ?>", '_') && NoChar(", 3 ); ?>", '_')
  {
  }

  /** A simple text quoted with blanks around it stays on one line. */
  lemma SpacedFree(text: string)
    requires Simple(text)
    ensures NoChar(" " + Dq(text), '\n') && NoChar(" " + Dq(text) + " ", '\n')
  {
  }

  /** The options most tests pass: the domain `test` and the three contact fields. */
  const FullOptions := Options(Some("test"), "http://example.com", "John Doe <mail@example.com>",
                               "Team Team <mail@example.com>", Full([]))

  /** A bare word that stands for a domain: a PHP variable or constant. */
  predicate BareWord(s: string) {
    && s != [] && Trimmed(s) && NoChar(s, '(') && NoChar(s, ')') && NoChar(s, SQ) && NoChar(s, DQ)
    && NoChar(s, ',') && NoChar(s, '_')
  }

  /** A simple text with an apostrophe in it needs no escaping in the catalog. */
  lemma PlainApostrophe(a: string, b: string)
    requires Simple(a) && Simple(b)
    ensures Plain(a + [SQ] + b) && NoChar(a + [SQ] + b, '\n')
  {
    var t := a + [SQ] + b;
    forall k | 0 <= k < |t|
      ensures t[k] != '\\' && t[k] != '"' && t[k] != '\t' && t[k] != '\n'
    {
      if k < |a| {
        assert t[k] == a[k];
      } else if k > |a| {
        assert t[k] == b[k - |a| - 1];
      }
    }
  }


  // ---------------------------------------------------------------------------
  // A plain call with a domain (test.js:24-39)

  function EArgList(text: string, domain: string): string {
    " " + Dq(text) + ", " + Dq(domain) + " "
  }

  function ESource(text: string, domain: string): string {
    "<?php _e(" + EArgList(text, domain) + "); ?>"
  }

  lemma ELayout(text: string, domain: string)
    ensures ESource(text, domain) == "<?php " + "_e" + "(" + JoinArgs([" " + Dq(text), " " + Dq(domain) + " "]) + ")" + "; ?>"
  {
    JoinTwo(" " + Dq(text), " " + Dq(domain) + " ");
    assert EArgList(text, domain) == JoinArgs([" " + Dq(text), " " + Dq(domain) + " "]);
  }

  lemma EExtracted(path: string, text: string, domain: string)
    requires Simple(text) && Simple(domain)
    ensures ExtractAll([SourceFile(path, ESource(text, domain))]) == [Record(text, None, None, Some(domain), path, 1)]
  {
    EArgs(text, domain);
    RecordOfText(Dq(text), Dq(domain), text, path, 1);
    Openings();
    ELayout(text, domain);
    CallExtracted(path, ESource(text, domain), "<?php ", "_e", [" " + Dq(text), " " + Dq(domain) + " "], "; ?>",
                  [Dq(text), Dq(domain)], [Single, Domain], Record(text, None, None, Some(domain), path, 1));
  }

  lemma EArgs(text: string, domain: string)
    requires Simple(text) && Simple(domain)
    ensures var args := [" " + Dq(text), " " + Dq(domain) + " "];
            var toks := [Dq(text), Dq(domain)];
            forall k :: 0 <= k < |args| ==> ArgIs(args[k], toks[k])
    ensures Unquote(Dq(text)) == Some(text) && DomainToken(Dq(domain)) == domain
  {
    PlainQuoted(" ", DQ, text, "");
    PlainQuoted(" ", DQ, domain, " ");
    ArgsTwo(" " + Dq(text), " " + Dq(domain) + " ", Dq(text), Dq(domain));
  }

  /** The arguments of a plain call, when the call is followed by another one:
      they also stay on the call's line. */
  lemma EArgsOneLine(text: string, domain: string)
    requires Simple(text) && Simple(domain)
    ensures var args := [" " + Dq(text), " " + Dq(domain) + " "];
            var toks := [Dq(text), Dq(domain)];
            forall k :: 0 <= k < |args| ==> ArgIs(args[k], toks[k]) && NoChar(args[k], '\n')
  {
    EArgs(text, domain);
    SpacedFree(text);
    SpacedFree(domain);
    var args := [" " + Dq(text), " " + Dq(domain) + " "];
    assert NoChar(args[0], '\n') && NoChar(args[1], '\n');
  }

  /** The text of a plain call shows as a msgid under a filter for its domain. */
  lemma EMsgid(opts: Options, path: string, date: string, text: string, domain: string)
    requires Simple(text) && Simple(domain) && opts.domain == Some(domain)
    ensures IndexOf(Generate(opts, date, [SourceFile(path, ESource(text, domain))]), "msgid \"" + text + "\"\n") != -1
  {
    EExtracted(path, text, domain);
    ShowsMsgidOf(opts, date, [SourceFile(path, ESource(text, domain))], Record(text, None, None, Some(domain), path, 1), text);
  }

  lemma NameFacts()
    ensures Simple("Name") && Simple("test")
    ensures "msgid \"" + "Name" + "\"\n" == "msgid \"Name\"\n"
  {
  }

  lemma GeneratesMsgid(path: string, date: string)
    ensures IndexOf(Generate(WithDomain("test"), date, [SourceFile(path, ESource("Name", "test"))]), "msgid \"Name\"\n") != -1
  {
    NameFacts();
    EMsgid(WithDomain("test"), path, date, "Name", "test");
  }

  // ---------------------------------------------------------------------------
  // A call with a context (test.js:41-59); the header and path tests reuse it

  function XArgList(text: string, ctx: string, domain: string): string {
    " " + Dq(text) + ", " + Dq(ctx) + ", " + Dq(domain) + " "
  }

  function XSource(text: string, ctx: string, domain: string): string {
    "<?php _x(" + XArgList(text, ctx, domain) + ");  ?>"
  }

  lemma XLayout(text: string, ctx: string, domain: string)
    ensures XSource(text, ctx, domain)
            == "<?php " + "_x" + "(" + JoinArgs([" " + Dq(text), " " + Dq(ctx), " " + Dq(domain) + " "]) + ")" + ";  ?>"
  {
    JoinThree(" " + Dq(text), " " + Dq(ctx), " " + Dq(domain) + " ");
    assert XArgList(text, ctx, domain) == JoinArgs([" " + Dq(text), " " + Dq(ctx), " " + Dq(domain) + " "]);
  }

  lemma XExtracted(path: string, text: string, ctx: string, domain: string)
    requires Simple(text) && Simple(ctx) && Simple(domain)
    ensures ExtractAll([SourceFile(path, XSource(text, ctx, domain))])
            == [Record(text, None, Some(ctx), Some(domain), path, 1)]
  {
    DqArgs(text, ctx, domain);
    RecordOfContext(Dq(text), Dq(ctx), Dq(domain), text, ctx, path, 1);
    Openings();
    XLayout(text, ctx, domain);
    CallExtracted(path, XSource(text, ctx, domain), "<?php ", "_x",
                  [" " + Dq(text), " " + Dq(ctx), " " + Dq(domain) + " "], ";  ?>",
                  [Dq(text), Dq(ctx), Dq(domain)], [Single, Context, Domain],
                  Record(text, None, Some(ctx), Some(domain), path, 1));
  }

  /** Three double-quoted literals written ` "a", "b", "c" ` are three arguments
      standing for their texts, the last also as a domain. */
  lemma DqArgs(a: string, b: string, c: string)
    requires Simple(a) && Simple(b) && Simple(c)
    ensures var args := [" " + Dq(a), " " + Dq(b), " " + Dq(c) + " "];
            var toks := [Dq(a), Dq(b), Dq(c)];
            forall k :: 0 <= k < |args| ==> ArgIs(args[k], toks[k])
    ensures Unquote(Dq(a)) == Some(a) && Unquote(Dq(b)) == Some(b) && DomainToken(Dq(c)) == c
  {
    PlainQuoted(" ", DQ, a, "");
    PlainQuoted(" ", DQ, b, "");
    PlainQuoted(" ", DQ, c, " ");
    ArgsThree(" " + Dq(a), " " + Dq(b), " " + Dq(c) + " ", Dq(a), Dq(b), Dq(c));
  }

  /** The context of a call shows as a msgctxt. */
  lemma XContext(opts: Options, path: string, date: string, text: string, ctx: string, domain: string)
    requires Simple(text) && Simple(ctx) && Simple(domain) && opts.domain == Some(domain)
    ensures IndexOf(Generate(opts, date, [SourceFile(path, XSource(text, ctx, domain))]), "msgctxt \"" + ctx + "\"\n") != -1
  {
    XExtracted(path, text, ctx, domain);
    ShowsContextOf(opts, date, [SourceFile(path, XSource(text, ctx, domain))],
                   Record(text, None, Some(ctx), Some(domain), path, 1), ctx);
  }

  lemma ContextAtoms()
    ensures Simple("Name") && Simple("the name") && Simple("test")
  {
  }

  lemma ContextNeedle()
    ensures "msgctxt \"" + "the name" + "\"\n" == "msgctxt \"the name\"\n"
  {
  }

  lemma GeneratesContext(path: string, date: string)
    ensures IndexOf(Generate(FullOptions, date, [SourceFile(path, XSource("Name", "the name", "test"))]),
                    "msgctxt \"the name\"\n") != -1
  {
    ContextAtoms();
    ContextNeedle();
    XContext(FullOptions, path, date, "Name", "the name", "test");
  }

  // ---------------------------------------------------------------------------
  // A plural call nested in another call (test.js:61-79)

  function NArgList(text: string, plural: string, count: string, domain: string): string {
    " " + Dq(text) + ", " + Dq(plural) + ", " + count + ", " + Dq(domain) + " "
  }

  function NSource(text: string, plural: string, count: string, domain: string): string {
    "<?php sprintf( _n(" + NArgList(text, plural, count, domain) + "), 3 ); ?>"
  }

  lemma NLayout(text: string, plural: string, count: string, domain: string)
    ensures NSource(text, plural, count, domain)
            == "<?php sprintf( " + "_n" + "(" + JoinArgs([" " + Dq(text), " " + Dq(plural), " " + count, " " + Dq(domain) + " "])
               + ")" + ", 3 ); ?>"
  {
    JoinFour(" " + Dq(text), " " + Dq(plural), " " + count, " " + Dq(domain) + " ");
    assert NArgList(text, plural, count, domain)
           == JoinArgs([" " + Dq(text), " " + Dq(plural), " " + count, " " + Dq(domain) + " "]);
  }

  lemma NArgs(text: string, plural: string, count: string, domain: string)
    requires Simple(text) && Simple(plural) && BareWord(count) && Simple(domain)
    ensures var args := [" " + Dq(text), " " + Dq(plural), " " + count, " " + Dq(domain) + " "];
            var toks := [Dq(text), Dq(plural), count, Dq(domain)];
            forall k :: 0 <= k < |args| ==> ArgIs(args[k], toks[k])
    ensures Unquote(Dq(text)) == Some(text) && Unquote(Dq(plural)) == Some(plural) && DomainToken(Dq(domain)) == domain
  {
    PlainQuoted(" ", DQ, text, "");
    PlainQuoted(" ", DQ, plural, "");
    BareArg(" ", count, "");
    PlainQuoted(" ", DQ, domain, " ");
    ArgsFour(" " + Dq(text), " " + Dq(plural), " " + count, " " + Dq(domain) + " ", Dq(text), Dq(plural), count, Dq(domain));
  }

  lemma NExtracted(path: string, text: string, plural: string, count: string, domain: string)
    requires Simple(text) && Simple(plural) && BareWord(count) && Simple(domain)
    ensures ExtractAll([SourceFile(path, NSource(text, plural, count, domain))])
            == [Record(text, Some(plural), None, Some(domain), path, 1)]
  {
    NArgs(text, plural, count, domain);
    RecordOfPlural(Dq(text), Dq(plural), count, Dq(domain), text, plural, path, 1);
    Openings();
    NLayout(text, plural, count, domain);
    CallExtracted(path, NSource(text, plural, count, domain), "<?php sprintf( ", "_n",
                  [" " + Dq(text), " " + Dq(plural), " " + count, " " + Dq(domain) + " "], ", 3 ); ?>",
                  [Dq(text), Dq(plural), count, Dq(domain)], [Single, Plural, Count, Domain],
                  Record(text, Some(plural), None, Some(domain), path, 1));
  }

  /** The plural of a call inside another call shows as a msgid_plural. */
  lemma NPlural(opts: Options, path: string, date: string, text: string, plural: string, count: string, domain: string)
    requires Simple(text) && Simple(plural) && BareWord(count) && Simple(domain) && opts.domain == Some(domain)
    ensures IndexOf(Generate(opts, date, [SourceFile(path, NSource(text, plural, count, domain))]),
                    "msgid_plural \"" + plural + "\"\n") != -1
  {
    NExtracted(path, text, plural, count, domain);
    ShowsPluralOf(opts, date, [SourceFile(path, NSource(text, plural, count, domain))],
                  Record(text, Some(plural), None, Some(domain), path, 1), plural);
  }

  lemma StarAtoms()
    ensures Simple("%s star") && Simple("%s stars") && Simple("test") && BareWord("3")
  {
  }

  /** The three keyword lines the plural tests look for. */
  lemma StarNeedles()
    ensures "msgctxt \"" + "stars translation" + "\"\n" == "msgctxt \"stars translation\"\n"
    ensures "msgid \"" + "%s star" + "\"\n" == "msgid \"%s star\"\n"
    ensures "msgid_plural \"" + "%s stars" + "\"\n" == "msgid_plural \"%s stars\"\n"
  {
  }

  lemma GeneratesPlural(path: string, date: string)
    ensures IndexOf(Generate(FullOptions, date, [SourceFile(path, NSource("%s star", "%s stars", "3", "test"))]),
                    "msgid_plural \"%s stars\"\n") != -1
  {
    StarAtoms();
    StarNeedles();
    NPlural(FullOptions, path, date, "%s star", "%s stars", "3", "test");
  }

  // ---------------------------------------------------------------------------
  // A plural call with a context, nested in another call (test.js:81-101)

  function NxArgList(text: string, plural: string, count: string, ctx: string, domain: string): string {
    " " + Dq(text) + ", " + Dq(plural) + ", " + count + ", " + Dq(ctx) + ", " + Dq(domain) + " "
  }

  function NxSource(text: string, plural: string, count: string, ctx: string, domain: string): string {
    "<?php sprintf( _nx(" + NxArgList(text, plural, count, ctx, domain) + "), 3 ); ?>"
  }

  lemma NxLayout(text: string, plural: string, count: string, ctx: string, domain: string)
    ensures NxSource(text, plural, count, ctx, domain)
            == "<?php sprintf( " + "_nx" + "("
               + JoinArgs([" " + Dq(text), " " + Dq(plural), " " + count, " " + Dq(ctx), " " + Dq(domain) + " "])
               + ")" + ", 3 ); ?>"
  {
    JoinFive(" " + Dq(text), " " + Dq(plural), " " + count, " " + Dq(ctx), " " + Dq(domain) + " ");
    assert NxArgList(text, plural, count, ctx, domain)
           == JoinArgs([" " + Dq(text), " " + Dq(plural), " " + count, " " + Dq(ctx), " " + Dq(domain) + " "]);
  }

  lemma NxArgs(text: string, plural: string, count: string, ctx: string, domain: string)
    requires Simple(text) && Simple(plural) && BareWord(count) && Simple(ctx) && Simple(domain)
    ensures var args := [" " + Dq(text), " " + Dq(plural), " " + count, " " + Dq(ctx), " " + Dq(domain) + " "];
            var toks := [Dq(text), Dq(plural), count, Dq(ctx), Dq(domain)];
            forall k :: 0 <= k < |args| ==> ArgIs(args[k], toks[k])
    ensures Unquote(Dq(text)) == Some(text) && Unquote(Dq(plural)) == Some(plural)
    ensures Unquote(Dq(ctx)) == Some(ctx) && DomainToken(Dq(domain)) == domain
  {
    PlainQuoted(" ", DQ, text, "");
    PlainQuoted(" ", DQ, plural, "");
    BareArg(" ", count, "");
    PlainQuoted(" ", DQ, ctx, "");
    PlainQuoted(" ", DQ, domain, " ");
    ArgsFive(" " + Dq(text), " " + Dq(plural), " " + count, " " + Dq(ctx), " " + Dq(domain) + " ",
             Dq(text), Dq(plural), count, Dq(ctx), Dq(domain));
  }

  lemma NxExtracted(path: string, text: string, plural: string, count: string, ctx: string, domain: string)
    requires Simple(text) && Simple(plural) && BareWord(count) && Simple(ctx) && Simple(domain)
    ensures ExtractAll([SourceFile(path, NxSource(text, plural, count, ctx, domain))])
            == [Record(text, Some(plural), Some(ctx), Some(domain), path, 1)]
  {
    NxArgs(text, plural, count, ctx, domain);
    RecordOfPluralContext(Dq(text), Dq(plural), count, Dq(ctx), Dq(domain), text, plural, ctx, path, 1);
    Openings();
    NxLayout(text, plural, count, ctx, domain);
    CallExtracted(path, NxSource(text, plural, count, ctx, domain), "<?php sprintf( ", "_nx",
                  [" " + Dq(text), " " + Dq(plural), " " + count, " " + Dq(ctx), " " + Dq(domain) + " "], ", 3 ); ?>",
                  [Dq(text), Dq(plural), count, Dq(ctx), Dq(domain)], [Single, Plural, Count, Context, Domain],
                  Record(text, Some(plural), Some(ctx), Some(domain), path, 1));
  }

  /** A plural call with a context shows its context, its text and its plural. */
  lemma NxLines(opts: Options, path: string, date: string, text: string, plural: string, count: string, ctx: string, domain: string)
    requires Simple(text) && Simple(plural) && BareWord(count) && Simple(ctx) && Simple(domain) && opts.domain == Some(domain)
    ensures var doc := Generate(opts, date, [SourceFile(path, NxSource(text, plural, count, ctx, domain))]);
            && IndexOf(doc, "msgctxt \"" + ctx + "\"\n") != -1
            && IndexOf(doc, "msgid \"" + text + "\"\n") != -1
            && IndexOf(doc, "msgid_plural \"" + plural + "\"\n") != -1
  {
    var files := [SourceFile(path, NxSource(text, plural, count, ctx, domain))];
    var r := Record(text, Some(plural), Some(ctx), Some(domain), path, 1);
    NxExtracted(path, text, plural, count, ctx, domain);
    ShowsContextOf(opts, date, files, r, ctx);
    ShowsMsgidOf(opts, date, files, r, text);
    ShowsPluralOf(opts, date, files, r, plural);
  }

  lemma PluralContextAtoms()
    ensures Simple("%s star") && Simple("%s stars") && Simple("stars translation") && Simple("test") && BareWord("3")
  {
  }

  lemma GeneratesPluralContext(path: string, date: string)
    ensures var doc := Generate(FullOptions, date, [SourceFile(path, NxSource("%s star", "%s stars", "3", "stars translation", "test"))]);
            && IndexOf(doc, "msgctxt \"stars translation\"\n") != -1
            && IndexOf(doc, "msgid \"%s star\"\n") != -1
            && IndexOf(doc, "msgid_plural \"%s stars\"\n") != -1
  {
    PluralContextAtoms();
    StarNeedles();
    NxLines(FullOptions, path, date, "%s star", "%s stars", "3", "stars translation", "test");
  }

  // ---------------------------------------------------------------------------
  // A plural without a count, with a domain filter (test.js:203-219)

  function NoopArgList(text: string, plural: string, domain: string): string {
    " " + Dq(text) + ", " + Dq(plural) + ", " + Dq(domain) + " "
  }

  function NoopSource(text: string, plural: string, domain: string): string {
    "<?php _n_noop(" + NoopArgList(text, plural, domain) + "); ?>"
  }

  lemma NoopLayout(text: string, plural: string, domain: string)
    ensures NoopSource(text, plural, domain)
            == "<?php " + "_n_noop" + "(" + JoinArgs([" " + Dq(text), " " + Dq(plural), " " + Dq(domain) + " "]) + ")" + "; ?>"
  {
    JoinThree(" " + Dq(text), " " + Dq(plural), " " + Dq(domain) + " ");
    assert NoopArgList(text, plural, domain) == JoinArgs([" " + Dq(text), " " + Dq(plural), " " + Dq(domain) + " "]);
  }

  lemma NoopExtracted(path: string, text: string, plural: string, domain: string)
    requires Simple(text) && Simple(plural) && Simple(domain)
    ensures ExtractAll([SourceFile(path, NoopSource(text, plural, domain))])
            == [Record(text, Some(plural), None, Some(domain), path, 1)]
  {
    DqArgs(text, plural, domain);
    RecordOfNoop(Dq(text), Dq(plural), Dq(domain), text, plural, path, 1);
    Openings();
    NoopLayout(text, plural, domain);
    CallExtracted(path, NoopSource(text, plural, domain), "<?php ", "_n_noop",
                  [" " + Dq(text), " " + Dq(plural), " " + Dq(domain) + " "], "; ?>",
                  [Dq(text), Dq(plural), Dq(domain)], [Single, Plural, Domain],
                  Record(text, Some(plural), None, Some(domain), path, 1));
  }

  /** A plural without a count shows its text and its plural. */
  lemma NoopLines(opts: Options, path: string, date: string, text: string, plural: string, domain: string)
    requires Simple(text) && Simple(plural) && Simple(domain) && opts.domain == Some(domain)
    ensures var doc := Generate(opts, date, [SourceFile(path, NoopSource(text, plural, domain))]);
            && IndexOf(doc, "msgid \"" + text + "\"\n") != -1
            && IndexOf(doc, "msgid_plural \"" + plural + "\"\n") != -1
  {
    var files := [SourceFile(path, NoopSource(text, plural, domain))];
    var r := Record(text, Some(plural), None, Some(domain), path, 1);
    NoopExtracted(path, text, plural, domain);
    ShowsMsgidOf(opts, date, files, r, text);
    ShowsPluralOf(opts, date, files, r, plural);
  }

  lemma GeneratesNoop(path: string, date: string)
    ensures var doc := Generate(WithDomain("test"), date, [SourceFile(path, NoopSource("%s star", "%s stars", "test"))]);
            && IndexOf(doc, "msgid \"%s star\"\n") != -1
            && IndexOf(doc, "msgid_plural \"%s stars\"\n") != -1
  {
    StarAtoms();
    StarNeedles();
    NoopLines(WithDomain("test"), path, date, "%s star", "%s stars", "test");
  }

  // ---------------------------------------------------------------------------
  // A domain given as a PHP variable or constant (test.js:241-256, 258-273)

  function BareArgList(text: string, domain: string): string {
    " " + Dq(text) + ", " + domain + " "
  }

  function BareSource(text: string, domain: string): string {
    "<?php _e(" + BareArgList(text, domain) + "); ?>"
  }

  lemma BareLayout(text: string, domain: string)
    ensures BareSource(text, domain) == "<?php " + "_e" + "(" + JoinArgs([" " + Dq(text), " " + domain + " "]) + ")" + "; ?>"
  {
    JoinTwo(" " + Dq(text), " " + domain + " ");
    assert BareArgList(text, domain) == JoinArgs([" " + Dq(text), " " + domain + " "]);
  }

  lemma BareExtracted(path: string, text: string, domain: string)
    requires Simple(text) && BareWord(domain)
    ensures ExtractAll([SourceFile(path, BareSource(text, domain))]) == [Record(text, None, None, Some(domain), path, 1)]
  {
    PlainQuoted(" ", DQ, text, "");
    BareArg(" ", domain, " ");
    ArgsTwo(" " + Dq(text), " " + domain + " ", Dq(text), domain);
    RecordOfText(Dq(text), domain, text, path, 1);
    Openings();
    BareLayout(text, domain);
    CallExtracted(path, BareSource(text, domain), "<?php ", "_e", [" " + Dq(text), " " + domain + " "], "; ?>",
                  [Dq(text), domain], [Single, Domain], Record(text, None, None, Some(domain), path, 1));
  }

  /** A domain written as a bare word is matched by a filter with that word. */
  lemma BareMsgid(opts: Options, path: string, date: string, text: string, domain: string)
    requires Simple(text) && BareWord(domain) && opts.domain == Some(domain)
    ensures IndexOf(Generate(opts, date, [SourceFile(path, BareSource(text, domain))]), "msgid \"" + text + "\"\n") != -1
  {
    BareExtracted(path, text, domain);
    ShowsMsgidOf(opts, date, [SourceFile(path, BareSource(text, domain))], Record(text, None, None, Some(domain), path, 1), text);
  }

  lemma BareAtoms()
    ensures BareWord("$test") && BareWord("TEST")
  {
  }

  lemma DomainVariable(path: string, date: string)
    ensures IndexOf(Generate(WithDomain("$test"), date, [SourceFile(path, BareSource("Name", "$test"))]), "msgid \"Name\"\n") != -1
  {
    NameFacts();
    BareAtoms();
    BareMsgid(WithDomain("$test"), path, date, "Name", "$test");
  }

  lemma DomainConstant(path: string, date: string)
    ensures IndexOf(Generate(WithDomain("TEST"), date, [SourceFile(path, BareSource("Name", "TEST"))]), "msgid \"Name\"\n") != -1
  {
    NameFacts();
    BareAtoms();
    BareMsgid(WithDomain("TEST"), path, date, "Name", "TEST");
  }

  // ---------------------------------------------------------------------------
  // A plural with a context and a constant as domain (test.js:275-292)

  function NxNoopArgList(text: string, plural: string, ctx: string, domain: string): string {
    " " + Dq(text) + ", " + Dq(plural) + ", " + Dq(ctx) + ", " + domain + " "
  }

  function NxNoopSource(text: string, plural: string, ctx: string, domain: string): string {
    "<?php _nx_noop(" + NxNoopArgList(text, plural, ctx, domain) + "); ?>"
  }

  lemma NxNoopLayout(text: string, plural: string, ctx: string, domain: string)
    ensures NxNoopSource(text, plural, ctx, domain)
            == "<?php " + "_nx_noop" + "(" + JoinArgs([" " + Dq(text), " " + Dq(plural), " " + Dq(ctx), " " + domain + " "])
               + ")" + "; ?>"
  {
    JoinFour(" " + Dq(text), " " + Dq(plural), " " + Dq(ctx), " " + domain + " ");
    assert NxNoopArgList(text, plural, ctx, domain)
           == JoinArgs([" " + Dq(text), " " + Dq(plural), " " + Dq(ctx), " " + domain + " "]);
  }

  lemma NxNoopArgs(text: string, plural: string, ctx: string, domain: string)
    requires Simple(text) && Simple(plural) && Simple(ctx) && BareWord(domain)
    ensures var args := [" " + Dq(text), " " + Dq(plural), " " + Dq(ctx), " " + domain + " "];
            var toks := [Dq(text), Dq(plural), Dq(ctx), domain];
            forall k :: 0 <= k < |args| ==> ArgIs(args[k], toks[k])
    ensures Unquote(Dq(text)) == Some(text) && Unquote(Dq(plural)) == Some(plural)
    ensures Unquote(Dq(ctx)) == Some(ctx) && DomainToken(domain) == domain
  {
    PlainQuoted(" ", DQ, text, "");
    PlainQuoted(" ", DQ, plural, "");
    PlainQuoted(" ", DQ, ctx, "");
    BareArg(" ", domain, " ");
    ArgsFour(" " + Dq(text), " " + Dq(plural), " " + Dq(ctx), " " + domain + " ", Dq(text), Dq(plural), Dq(ctx), domain);
  }

  lemma NxNoopExtracted(path: string, text: string, plural: string, ctx: string, domain: string)
    requires Simple(text) && Simple(plural) && Simple(ctx) && BareWord(domain)
    ensures ExtractAll([SourceFile(path, NxNoopSource(text, plural, ctx, domain))])
            == [Record(text, Some(plural), Some(ctx), Some(domain), path, 1)]
  {
    NxNoopArgs(text, plural, ctx, domain);
    RecordOfNoopContext(Dq(text), Dq(plural), Dq(ctx), domain, text, plural, ctx, path, 1);
    Openings();
    NxNoopLayout(text, plural, ctx, domain);
    CallExtracted(path, NxNoopSource(text, plural, ctx, domain), "<?php ", "_nx_noop",
                  [" " + Dq(text), " " + Dq(plural), " " + Dq(ctx), " " + domain + " "], "; ?>",
                  [Dq(text), Dq(plural), Dq(ctx), domain], [Single, Plural, Context, Domain],
                  Record(text, Some(plural), Some(ctx), Some(domain), path, 1));
  }

  /** A countless plural with a context shows its context, its text and its plural. */
  lemma NxNoopLines(opts: Options, path: string, date: string, text: string, plural: string, ctx: string, domain: string)
    requires Simple(text) && Simple(plural) && Simple(ctx) && BareWord(domain) && opts.domain == Some(domain)
    ensures var doc := Generate(opts, date, [SourceFile(path, NxNoopSource(text, plural, ctx, domain))]);
            && IndexOf(doc, "msgctxt \"" + ctx + "\"\n") != -1
            && IndexOf(doc, "msgid \"" + text + "\"\n") != -1
            && IndexOf(doc, "msgid_plural \"" + plural + "\"\n") != -1
  {
    var files := [SourceFile(path, NxNoopSource(text, plural, ctx, domain))];
    var r := Record(text, Some(plural), Some(ctx), Some(domain), path, 1);
    NxNoopExtracted(path, text, plural, ctx, domain);
    ShowsContextOf(opts, date, files, r, ctx);
    ShowsMsgidOf(opts, date, files, r, text);
    ShowsPluralOf(opts, date, files, r, plural);
  }

  lemma GeneratesNoopContext(path: string, date: string)
    ensures var doc := Generate(WithDomain("TEST"), date,
                                [SourceFile(path, NxNoopSource("%s star", "%s stars", "stars translation", "TEST"))]);
            && IndexOf(doc, "msgctxt \"stars translation\"\n") != -1
            && IndexOf(doc, "msgid \"%s star\"\n") != -1
            && IndexOf(doc, "msgid_plural \"%s stars\"\n") != -1
  {
    PluralContextAtoms();
    BareAtoms();
    StarNeedles();
    NxNoopLines(WithDomain("TEST"), path, date, "%s star", "%s stars", "stars translation", "TEST");
  }

  // ---------------------------------------------------------------------------
  // Quotes inside texts (test.js:103-161)

  /** A simple text, an escaped quote, and another simple text read as the
      two texts around the bare quote. */
  lemma EscapedOnce(q: char, a: string, b: string)
    requires IsQuote(q) && Simple(a) && Simple(b)
    ensures Reads(q, a + [BS, q] + b, a + [q] + b) && NoChar(a + [BS, q] + b, '_')
  {
    ReadsPlain(q, a);
    ReadsEscape(q);
    ReadsAppend(q, a, a, [BS, q], [q]);
    ReadsPlain(q, b);
    ReadsAppend(q, a + [BS, q], a + [q], b, b);
    NoCharAppend(a, [BS, q], '_');
    NoCharAppend(a + [BS, q], b, '_');
  }

  /** The same with a second escaped quote at the end. */
  lemma EscapedTwice(q: char, a: string, b: string)
    requires IsQuote(q) && Simple(a) && Simple(b)
    ensures Reads(q, a + [BS, q] + b + [BS, q], a + [q] + b + [q]) && NoChar(a + [BS, q] + b + [BS, q], '_')
  {
    EscapedOnce(q, a, b);
    ReadsEscape(q);
    ReadsAppend(q, a + [BS, q] + b, a + [q] + b, [BS, q], [q]);
    NoCharAppend(a + [BS, q] + b, [BS, q], '_');
  }

  /** The call of test.js:103-121: an apostrophe escaped inside single quotes. */
  function ApostropheArgList(a: string, b: string, domain: string): string {
    " " + Sq(a + [BS, SQ] + b) + ", " + Sq(domain) + " "
  }

  function ApostropheSource(a: string, b: string, domain: string): string {
    "<?php __(" + ApostropheArgList(a, b, domain) + "); ?>"
  }

  lemma ApostropheLayout(a: string, b: string, domain: string)
    ensures ApostropheSource(a, b, domain)
            == "<?php " + "__" + "(" + JoinArgs([" " + Sq(a + [BS, SQ] + b), " " + Sq(domain) + " "]) + ")" + "; ?>"
  {
    JoinTwo(" " + Sq(a + [BS, SQ] + b), " " + Sq(domain) + " ");
    assert ApostropheArgList(a, b, domain) == JoinArgs([" " + Sq(a + [BS, SQ] + b), " " + Sq(domain) + " "]);
  }

  lemma ApostropheExtracted(path: string, a: string, b: string, domain: string)
    requires Simple(a) && Simple(b) && Simple(domain)
    ensures ExtractAll([SourceFile(path, ApostropheSource(a, b, domain))])
            == [Record(a + [SQ] + b, None, None, Some(domain), path, 1)]
  {
    var body := a + [BS, SQ] + b;
    EscapedOnce(SQ, a, b);
    QuotedArg(" ", SQ, body, a + [SQ] + b, "");
    PlainQuoted(" ", SQ, domain, " ");
    ArgsTwo(" " + Sq(body), " " + Sq(domain) + " ", Sq(body), Sq(domain));
    RecordOfText(Sq(body), Sq(domain), a + [SQ] + b, path, 1);
    Openings();
    ApostropheLayout(a, b, domain);
    CallExtracted(path, ApostropheSource(a, b, domain), "<?php ", "__", [" " + Sq(body), " " + Sq(domain) + " "], "; ?>",
                  [Sq(body), Sq(domain)], [Single, Domain], Record(a + [SQ] + b, None, None, Some(domain), path, 1));
  }

  /** An escaped apostrophe is read as an apostrophe, which the catalog writes
      as it is. */
  lemma ApostropheMsgid(opts: Options, path: string, date: string, a: string, b: string, domain: string)
    requires Simple(a) && Simple(b) && Simple(domain) && opts.domain == Some(domain)
    ensures IndexOf(Generate(opts, date, [SourceFile(path, ApostropheSource(a, b, domain))]),
                    "msgid \"" + (a + [SQ] + b) + "\"\n") != -1
  {
    ApostropheExtracted(path, a, b, domain);
    PlainApostrophe(a, b);
    ShowsMsgidOf(opts, date, [SourceFile(path, ApostropheSource(a, b, domain))],
                 Record(a + [SQ] + b, None, None, Some(domain), path, 1), a + [SQ] + b);
  }

  lemma ApostropheAtoms()
    ensures Simple("It") && Simple("s escaped") && Simple("test")
    ensures "msgid \"" + ("It" + [SQ] + "s escaped") + "\"\n" == "msgid \"It's escaped\"\n"
  {
  }

  lemma GeneratesApostrophe(path: string, date: string)
    ensures IndexOf(Generate(FullOptions, date, [SourceFile(path, ApostropheSource("It", "s escaped", "test"))]),
                    "msgid \"It's escaped\"\n") != -1
  {
    ApostropheAtoms();
    ApostropheMsgid(FullOptions, path, date, "It", "s escaped", "test");
  }

  /** The call of test.js:123-141: double quotes inside single quotes. */
  function InnerQuotesArgList(a: string, b: string, domain: string): string {
    " " + Sq(a + [DQ] + b + [DQ]) + ", " + Sq(domain) + " "
  }

  function InnerQuotesSource(a: string, b: string, domain: string): string {
    "<?php __(" + InnerQuotesArgList(a, b, domain) + "); ?>"
  }

  lemma InnerQuotesLayout(a: string, b: string, domain: string)
    ensures InnerQuotesSource(a, b, domain)
            == "<?php " + "__" + "(" + JoinArgs([" " + Sq(a + [DQ] + b + [DQ]), " " + Sq(domain) + " "]) + ")" + "; ?>"
  {
    JoinTwo(" " + Sq(a + [DQ] + b + [DQ]), " " + Sq(domain) + " ");
    assert InnerQuotesArgList(a, b, domain) == JoinArgs([" " + Sq(a + [DQ] + b + [DQ]), " " + Sq(domain) + " "]);
  }

  /** Two simple texts and two double quotes hold no backslash, apostrophe or
      underscore. */
  lemma InnerQuotesFree(a: string, b: string)
    requires Simple(a) && Simple(b)
    ensures NoChar(a + [DQ] + b + [DQ], BS) && NoChar(a + [DQ] + b + [DQ], SQ) && NoChar(a + [DQ] + b + [DQ], '_')
  {
    var t := a + [DQ] + b + [DQ];
    forall k | 0 <= k < |t|
      ensures t[k] != BS && t[k] != SQ && t[k] != '_'
    {
      if k < |a| {
        assert t[k] == a[k];
      } else if |a| < k < |a| + 1 + |b| {
        assert t[k] == b[k - |a| - 1];
      }
    }
  }

  lemma InnerQuotesExtracted(path: string, a: string, b: string, domain: string)
    requires Simple(a) && Simple(b) && Simple(domain)
    ensures ExtractAll([SourceFile(path, InnerQuotesSource(a, b, domain))])
            == [Record(a + [DQ] + b + [DQ], None, None, Some(domain), path, 1)]
  {
    var body := a + [DQ] + b + [DQ];
    InnerQuotesFree(a, b);
    PlainQuoted(" ", SQ, body, "");
    PlainQuoted(" ", SQ, domain, " ");
    ArgsTwo(" " + Sq(body), " " + Sq(domain) + " ", Sq(body), Sq(domain));
    RecordOfText(Sq(body), Sq(domain), body, path, 1);
    Openings();
    InnerQuotesLayout(a, b, domain);
    CallExtracted(path, InnerQuotesSource(a, b, domain), "<?php ", "__", [" " + Sq(body), " " + Sq(domain) + " "], "; ?>",
                  [Sq(body), Sq(domain)], [Single, Domain], Record(body, None, None, Some(domain), path, 1));
  }

  /** Double quotes inside single quotes are kept, and the catalog escapes them. */
  lemma InnerQuotesMsgid(opts: Options, path: string, date: string, a: string, b: string, domain: string)
    requires Simple(a) && Simple(b) && Simple(domain) && opts.domain == Some(domain)
    ensures IndexOf(Generate(opts, date, [SourceFile(path, InnerQuotesSource(a, b, domain))]),
                    "msgid \"" + (a + "\\\"" + b + "\\\"") + "\"\n") != -1
  {
    InnerQuotesExtracted(path, a, b, domain);
    ShowsQuotedMsgid(opts, date, [SourceFile(path, InnerQuotesSource(a, b, domain))],
                     Record(a + [DQ] + b + [DQ], None, None, Some(domain), path, 1), a, b);
  }

  lemma HelloWorldAtoms()
    ensures Simple("Hello ") && Simple("World") && Simple("test")
    ensures "msgid \"" + ("Hello " + "\\\"" + "World" + "\\\"") + "\"\n" == "msgid \"Hello \\\"World\\\"\"\n"
  {
  }

  lemma GeneratesInnerQuotes(path: string, date: string)
    ensures IndexOf(Generate(FullOptions, date, [SourceFile(path, InnerQuotesSource("Hello ", "World", "test"))]),
                    "msgid \"Hello \\\"World\\\"\"\n") != -1
  {
    HelloWorldAtoms();
    InnerQuotesMsgid(FullOptions, path, date, "Hello ", "World", "test");
  }

  /** The call of test.js:143-161: escaped double quotes inside double quotes. */
  function EscapedQuotesArgList(a: string, b: string, domain: string): string {
    " " + Dq(a + [BS, DQ] + b + [BS, DQ]) + ", " + Sq(domain) + " "
  }

  function EscapedQuotesSource(a: string, b: string, domain: string): string {
    "<?php __(" + EscapedQuotesArgList(a, b, domain) + "); ?>"
  }

  lemma EscapedQuotesLayout(a: string, b: string, domain: string)
    ensures EscapedQuotesSource(a, b, domain)
            == "<?php " + "__" + "(" + JoinArgs([" " + Dq(a + [BS, DQ] + b + [BS, DQ]), " " + Sq(domain) + " "]) + ")" + "; ?>"
  {
    JoinTwo(" " + Dq(a + [BS, DQ] + b + [BS, DQ]), " " + Sq(domain) + " ");
    assert EscapedQuotesArgList(a, b, domain) == JoinArgs([" " + Dq(a + [BS, DQ] + b + [BS, DQ]), " " + Sq(domain) + " "]);
  }

  lemma EscapedQuotesExtracted(path: string, a: string, b: string, domain: string)
    requires Simple(a) && Simple(b) && Simple(domain)
    ensures ExtractAll([SourceFile(path, EscapedQuotesSource(a, b, domain))])
            == [Record(a + [DQ] + b + [DQ], None, None, Some(domain), path, 1)]
  {
    var body := a + [BS, DQ] + b + [BS, DQ];
    EscapedTwice(DQ, a, b);
    QuotedArg(" ", DQ, body, a + [DQ] + b + [DQ], "");
    PlainQuoted(" ", SQ, domain, " ");
    ArgsTwo(" " + Dq(body), " " + Sq(domain) + " ", Dq(body), Sq(domain));
    RecordOfText(Dq(body), Sq(domain), a + [DQ] + b + [DQ], path, 1);
    Openings();
    EscapedQuotesLayout(a, b, domain);
    CallExtracted(path, EscapedQuotesSource(a, b, domain), "<?php ", "__", [" " + Dq(body), " " + Sq(domain) + " "], "; ?>",
                  [Dq(body), Sq(domain)], [Single, Domain], Record(a + [DQ] + b + [DQ], None, None, Some(domain), path, 1));
  }

  /** Escaped double quotes are read as double quotes, which the catalog
      escapes again: the template shows what the source showed. */
  lemma EscapedQuotesMsgid(opts: Options, path: string, date: string, a: string, b: string, domain: string)
    requires Simple(a) && Simple(b) && Simple(domain) && opts.domain == Some(domain)
    ensures IndexOf(Generate(opts, date, [SourceFile(path, EscapedQuotesSource(a, b, domain))]),
                    "msgid \"" + (a + "\\\"" + b + "\\\"") + "\"\n") != -1
  {
    EscapedQuotesExtracted(path, a, b, domain);
    ShowsQuotedMsgid(opts, date, [SourceFile(path, EscapedQuotesSource(a, b, domain))],
                     Record(a + [DQ] + b + [DQ], None, None, Some(domain), path, 1), a, b);
  }

  lemma GeneratesEscapedQuotes(path: string, date: string)
    ensures IndexOf(Generate(FullOptions, date, [SourceFile(path, EscapedQuotesSource("Hello ", "World", "test"))]),
                    "msgid \"Hello \\\"World\\\"\"\n") != -1
  {
    HelloWorldAtoms();
    EscapedQuotesMsgid(FullOptions, path, date, "Hello ", "World", "test");
  }

  // ---------------------------------------------------------------------------
  // Line breaks (test.js:163-201)

  /** The call of test.js:163-181: a text with a line break, wrapped in parentheses. */
  function WrappedArgList(a: string, b: string, domain: string): string {
    " ( " + Dq(a + "\n" + b) + "), " + Sq(domain) + " "
  }

  function WrappedSource(a: string, b: string, domain: string): string {
    "<?php __(" + WrappedArgList(a, b, domain) + "); ?>"
  }

  lemma WrappedLayout(a: string, b: string, domain: string)
    ensures WrappedSource(a, b, domain)
            == "<?php " + "__" + "(" + JoinArgs([" " + "(" + (" " + Dq(a + "\n" + b)) + ")" + "", " " + Sq(domain) + " "])
               + ")" + "; ?>"
  {
    JoinTwo(" " + "(" + (" " + Dq(a + "\n" + b)) + ")" + "", " " + Sq(domain) + " ");
    assert WrappedArgList(a, b, domain) == JoinArgs([" " + "(" + (" " + Dq(a + "\n" + b)) + ")" + "", " " + Sq(domain) + " "]);
  }

  /** Two simple texts around a line break hold no backslash, double quote or
      underscore. */
  lemma LineBreakFree(a: string, b: string)
    requires Simple(a) && Simple(b)
    ensures NoChar(a + "\n" + b, BS) && NoChar(a + "\n" + b, DQ) && NoChar(a + "\n" + b, '_')
  {
    var t := a + "\n" + b;
    forall k | 0 <= k < |t|
      ensures t[k] != BS && t[k] != DQ && t[k] != '_'
    {
      if k < |a| {
        assert t[k] == a[k];
      } else if k > |a| {
        assert t[k] == b[k - |a| - 1];
      }
    }
  }

  lemma WrappedExtracted(path: string, a: string, b: string, domain: string)
    requires Simple(a) && Simple(b) && Simple(domain)
    ensures ExtractAll([SourceFile(path, WrappedSource(a, b, domain))])
            == [Record(a + "\n" + b, None, None, Some(domain), path, 1)]
  {
    var body := a + "\n" + b;
    var args := [" " + "(" + (" " + Dq(body)) + ")" + "", " " + Sq(domain) + " "];
    LineBreakFree(a, b);
    ReadsPlain(DQ, body);
    WrappedQuoted(" ", " ", DQ, body, body, "");
    PlainQuoted(" ", SQ, domain, " ");
    ArgsTwo(args[0], args[1], Dq(body), Sq(domain));
    RecordOfText(Dq(body), Sq(domain), body, path, 1);
    Openings();
    WrappedLayout(a, b, domain);
    CallExtracted(path, WrappedSource(a, b, domain), "<?php ", "__", args, "; ?>",
                  [Dq(body), Sq(domain)], [Single, Domain], Record(body, None, None, Some(domain), path, 1));
  }

  /** A text with a line break is written over several lines, after an empty
      first string. */
  lemma WrappedMsgid(opts: Options, path: string, date: string, a: string, b: string, domain: string)
    requires Simple(a) && Simple(b) && Simple(domain) && opts.domain == Some(domain)
    ensures IndexOf(Generate(opts, date, [SourceFile(path, WrappedSource(a, b, domain))]),
                    Unlines(["msgid \"\"", "\"" + a + "\\n\"", "\"" + b + "\""])) != -1
  {
    WrappedExtracted(path, a, b, domain);
    ShowsTwoLineMsgid(opts, date, [SourceFile(path, WrappedSource(a, b, domain))],
                      Record(a + "\n" + b, None, None, Some(domain), path, 1), a, b);
  }

  lemma WrappedAtoms()
    ensures Simple("Hello") && Simple("World") && Simple("test")
    ensures Unlines(["msgid \"\"", "\"" + "Hello" + "\\n\"", "\"" + "World" + "\""]) == "msgid \"\"\n\"Hello\\n\"\n\"World\"\n"
  {
    UnlinesThree("msgid \"\"", "\"" + "Hello" + "\\n\"", "\"" + "World" + "\"");
  }

  lemma GeneratesWrapped(path: string, date: string)
    ensures IndexOf(Generate(FullOptions, date, [SourceFile(path, WrappedSource("Hello", "World", "test"))]),
                    "msgid \"\"\n\"Hello\\n\"\n\"World\"\n") != -1
  {
    WrappedAtoms();
    WrappedMsgid(FullOptions, path, date, "Hello", "World", "test");
  }

  /** The call of test.js:183-201: arguments on lines of their own. */
  function SpreadArgList(text: string, domain: string): string {
    "\n\t" + Dq(text) + ",\n\t" + Sq(domain) + "\n"
  }

  function SpreadSource(text: string, domain: string): string {
    "<?php __(" + SpreadArgList(text, domain) + "); ?>"
  }

  lemma SpreadLayout(text: string, domain: string)
    ensures SpreadSource(text, domain) == "<?php " + "__" + "(" + JoinArgs(["\n\t" + Dq(text), "\n\t" + Sq(domain) + "\n"]) + ")" + "; ?>"
  {
    JoinTwo("\n\t" + Dq(text), "\n\t" + Sq(domain) + "\n");
    assert SpreadArgList(text, domain) == JoinArgs(["\n\t" + Dq(text), "\n\t" + Sq(domain) + "\n"]);
  }

  lemma SpreadArgs(text: string, domain: string)
    requires Simple(text) && Simple(domain)
    ensures var args := ["\n\t" + Dq(text), "\n\t" + Sq(domain) + "\n"];
            var toks := [Dq(text), Sq(domain)];
            forall k :: 0 <= k < |args| ==> ArgIs(args[k], toks[k])
    ensures Unquote(Dq(text)) == Some(text) && DomainToken(Sq(domain)) == domain
  {
    PlainQuoted("\n\t", DQ, text, "");
    PlainQuoted("\n\t", SQ, domain, "\n");
    ArgsTwo("\n\t" + Dq(text), "\n\t" + Sq(domain) + "\n", Dq(text), Sq(domain));
  }

  lemma SpreadExtracted(path: string, text: string, domain: string)
    requires Simple(text) && Simple(domain)
    ensures ExtractAll([SourceFile(path, SpreadSource(text, domain))]) == [Record(text, None, None, Some(domain), path, 1)]
  {
    SpreadArgs(text, domain);
    RecordOfText(Dq(text), Sq(domain), text, path, 1);
    Openings();
    SpreadLayout(text, domain);
    CallExtracted(path, SpreadSource(text, domain), "<?php ", "__", ["\n\t" + Dq(text), "\n\t" + Sq(domain) + "\n"], "; ?>",
                  [Dq(text), Sq(domain)], [Single, Domain], Record(text, None, None, Some(domain), path, 1));
  }

  /** Line breaks between the arguments do not matter, and the record keeps the
      line where the call starts. */
  lemma SpreadMsgid(opts: Options, path: string, date: string, text: string, domain: string)
    requires Simple(text) && Simple(domain) && opts.domain == Some(domain)
    ensures IndexOf(Generate(opts, date, [SourceFile(path, SpreadSource(text, domain))]), "msgid \"" + text + "\"\n") != -1
  {
    SpreadExtracted(path, text, domain);
    ShowsMsgidOf(opts, date, [SourceFile(path, SpreadSource(text, domain))],
                 Record(text, None, None, Some(domain), path, 1), text);
  }

  lemma SpreadAtoms()
    ensures Simple("Hello World") && Simple("test")
    ensures "msgid \"" + "Hello World" + "\"\n" == "msgid \"Hello World\"\n"
  {
  }

  lemma GeneratesSpread(path: string, date: string)
    ensures IndexOf(Generate(FullOptions, date, [SourceFile(path, SpreadSource("Hello World", "test"))]),
                    "msgid \"Hello World\"\n") != -1
  {
    SpreadAtoms();
    SpreadMsgid(FullOptions, path, date, "Hello World", "test");
  }

  // ---------------------------------------------------------------------------
  // A text met twice is written once (test.js:221-237)

  /** The line a keyword and a plain text make. */
  lemma KeywordLine(kw: string, head: string, t: string)
    requires Plain(t) && head == kw + " \""
    ensures StringLines(kw, t) == [head + t + "\""]
  {
    EscapePlain(t);
    assert NoChar(t, '\n');
    assert kw + " " + ("\"" + t + "\"") == head + t + "\"";
  }

  /** A keyword line that ends with another keyword's line has the other keyword
      at the end of its own: the double quotes of both lines must meet. */
  lemma KeywordLineTail(kw1: string, t1: string, kw2: string, t2: string)
    requires NoChar(kw1, DQ) && NoChar(t1, DQ) && NoChar(kw2, DQ) && NoChar(t2, DQ)
    requires EndsWith(kw1 + " \"" + t1 + "\"", kw2 + " \"" + t2 + "\"")
    ensures EndsWith(kw1, kw2)
  {
    var line, m := kw1 + " \"" + t1 + "\"", kw2 + " \"" + t2 + "\"";
    var d := |line| - |m|;
    var j := d + |kw2| + 1;
    assert line[d..] == m;
    assert m[|kw2| + 1] == DQ;
    assert line[j] == line[d..][|kw2| + 1];
    assert d + |kw2| == |kw1|;
    forall i | 0 <= i < |kw2|
      ensures kw1[d + i] == kw2[i]
    {
      assert line[d + i] == line[d..][i] == m[i];
      assert line[d + i] == kw1[d + i];
      assert m[i] == kw2[i];
    }
    assert kw1[|kw1| - |kw2|..] == kw2;
  }

  /** Lines of two keywords, neither ending with the other, never end with each
      other's line. */
  lemma KeywordLineMisses(kw1: string, t1: string, kw2: string, t2: string)
    requires NoChar(kw1, DQ) && NoChar(t1, DQ) && NoChar(kw2, DQ) && NoChar(t2, DQ)
    requires !EndsWith(kw1, kw2)
    ensures !EndsWith(kw1 + " \"" + t1 + "\"", kw2 + " \"" + t2 + "\"")
  {
    if EndsWith(kw1 + " \"" + t1 + "\"", kw2 + " \"" + t2 + "\"") {
      KeywordLineTail(kw1, t1, kw2, t2);
    }
  }

  /** The call of test.js:223: a plain call and a countless plural with the same text. */
  function DupSource(text: string, plural: string, domain: string): string {
    "<?php _e(" + EArgList(text, domain) + "); _n_noop(" + NoopArgList(text, plural, domain) + "); ?>"
  }

  lemma DupLayout(text: string, plural: string, domain: string)
    ensures DupSource(text, plural, domain)
            == "<?php " + "_e" + "(" + JoinArgs([" " + Dq(text), " " + Dq(domain) + " "]) + ")"
               + ("; " + "_n_noop" + "(" + JoinArgs([" " + Dq(text), " " + Dq(plural), " " + Dq(domain) + " "]) + ")" + "; ?>")
  {
    JoinTwo(" " + Dq(text), " " + Dq(domain) + " ");
    assert EArgList(text, domain) == JoinArgs([" " + Dq(text), " " + Dq(domain) + " "]);
    JoinThree(" " + Dq(text), " " + Dq(plural), " " + Dq(domain) + " ");
    assert NoopArgList(text, plural, domain) == JoinArgs([" " + Dq(text), " " + Dq(plural), " " + Dq(domain) + " "]);
  }

  lemma DupExtracted(path: string, text: string, plural: string, domain: string)
    requires Simple(text) && Simple(plural) && Simple(domain)
    ensures ExtractAll([SourceFile(path, DupSource(text, plural, domain))])
            == [Record(text, None, None, Some(domain), path, 1), Record(text, Some(plural), None, Some(domain), path, 1)]
  {
    var args1 := [" " + Dq(text), " " + Dq(domain) + " "];
    var args2 := [" " + Dq(text), " " + Dq(plural), " " + Dq(domain) + " "];
    EArgs(text, domain);
    EArgsOneLine(text, domain);
    DqArgs(text, plural, domain);
    RecordOfText(Dq(text), Dq(domain), text, path, 1);
    RecordOfNoop(Dq(text), Dq(plural), Dq(domain), text, plural, path, 1);
    Openings();
    DupLayout(text, plural, domain);
    TwoCallsExtracted(path, "<?php ", "_e", args1, "; ", "_n_noop", args2, "; ?>",
                      [Dq(text), Dq(domain)], [Dq(text), Dq(plural), Dq(domain)],
                      [Single, Domain], [Single, Plural, Domain],
                      Record(text, None, None, Some(domain), path, 1), Record(text, Some(plural), None, Some(domain), path, 1));
  }

  /** The two calls make one entry: the key is the same, the place is the same,
      and the plural comes from the second call. */
  lemma DupCatalog(opts: Options, path: string, text: string, plural: string, domain: string)
    requires Simple(text) && Simple(plural) && Simple(domain) && opts.domain == Some(domain)
    ensures CatalogOf(opts, [SourceFile(path, DupSource(text, plural, domain))])
            == [Entry(Key(None, text), Some(plural), [Occurrence(path, 1)])]
  {
    DupExtracted(path, text, plural, domain);
    CatalogSameKey(Record(text, None, None, Some(domain), path, 1), Record(text, Some(plural), None, Some(domain), path, 1),
                   opts.domain);
  }

  /** A one-line list counts its line if it ends with `m`. */
  lemma CountSingle(x: string, m: string)
    ensures CountEndingWith([x], m) == if EndsWith(x, m) then 1 else 0
  {
    assert [x][1..] == [];
  }

  /** The count over an entry with a plural and no context is the sum over its
      references, its msgid, its msgid_plural, its two translations and the
      closing blank line. */
  lemma PluralEntryCount(e: Entry, m: string)
    requires e.key.context.None? && e.plural.Some?
    ensures CountEndingWith(EntryLines(e), m)
            == CountEndingWith([RefsLine(e.refs)], m) + CountEndingWith(StringLines("msgid", e.key.msgid), m)
               + CountEndingWith(StringLines("msgid_plural", e.plural.value), m)
               + CountEndingWith(["msgstr[0] \"\"", "msgstr[1] \"\""], m) + CountEndingWith([""], m)
  {
    var r, l1, l2, tr := [RefsLine(e.refs)], StringLines("msgid", e.key.msgid), StringLines("msgid_plural", e.plural.value),
                         ["msgstr[0] \"\"", "msgstr[1] \"\""];
    assert ContextLines(e) == [] && r + [] == r;
    assert TranslationLines(e) == l2 + tr;
    CountEndingWithAppend(r + l1 + (l2 + tr), [""], m);
    CountEndingWithAppend(r + l1, l2 + tr, m);
    CountEndingWithAppend(r, l1, m);
    CountEndingWithAppend(l2, tr, m);
  }

  /** In a one-place entry with a plural and no context, the msgid line and the
      msgid_plural line each end one line. */
  lemma PluralEntryCounts(path: string, text: string, plural: string)
    requires Simple(text) && Simple(plural) && text != [] && plural != []
    ensures var lines := EntryLines(Entry(Key(None, text), Some(plural), [Occurrence(path, 1)]));
            && CountEndingWith(lines, "msgid \"" + text + "\"") == 1
            && CountEndingWith(lines, "msgid_plural \"" + plural + "\"") == 1
  {
    PluralEntryCountFor(path, text, plural, "msgid \"" + text + "\"");
    PluralEntryCountFor(path, text, plural, "msgid_plural \"" + plural + "\"");
    MsgidCounts(text, plural);
  }

  /** The count of one needle over such an entry: the count over its msgid line
      and its msgid_plural line. */
  lemma PluralEntryCountFor(path: string, text: string, plural: string, m: string)
    requires Simple(text) && Simple(plural) && |m| >= 2 && m[|m| - 1] == DQ && m[|m| - 2] != DQ
    ensures CountEndingWith(EntryLines(Entry(Key(None, text), Some(plural), [Occurrence(path, 1)])), m)
            == CountEndingWith(["msgid \"" + text + "\""], m) + CountEndingWith(["msgid_plural \"" + plural + "\""], m)
  {
    PluralEntryCount(Entry(Key(None, text), Some(plural), [Occurrence(path, 1)]), m);
    PluralEntryParts(path, text, plural, m);
  }

  /** The references line, the translations and the blank line end with no
      quoted text that is not empty, and the keyword lines are single lines. */
  lemma PluralEntryParts(path: string, text: string, plural: string, m: string)
    requires Simple(text) && Simple(plural) && |m| >= 2 && m[|m| - 1] == DQ && m[|m| - 2] != DQ
    ensures CountEndingWith([RefsLine([Occurrence(path, 1)])], m) == 0
    ensures CountEndingWith(["msgstr[0] \"\"", "msgstr[1] \"\""], m) == 0
    ensures CountEndingWith([""], m) == 0
    ensures CountEndingWith(StringLines("msgid", text), m) == CountEndingWith(["msgid \"" + text + "\""], m)
    ensures CountEndingWith(StringLines("msgid_plural", plural), m) == CountEndingWith(["msgid_plural \"" + plural + "\""], m)
  {
    RefsCount([Occurrence(path, 1)], m);
    TranslationsCount(m);
    CountSingle("", m);
    Heads();
    KeywordLine("msgid", "msgid \"", text);
    KeywordLine("msgid_plural", "msgid_plural \"", plural);
  }

  /** A references line ends with a digit, not a quote. */
  lemma RefsCount(refs: seq<Occurrence>, m: string)
    requires refs != [] && |m| >= 1 && m[|m| - 1] == DQ
    ensures CountEndingWith([RefsLine(refs)], m) == 0
  {
    var line, t := RefsLine(refs), RefList(refs);
    RefListEnds(refs);
    assert line == "#:" + t;
    assert line[|line| - 1] == t[|t| - 1] != DQ;
    NotEndsWith(line, m, |m| - 1);
    CountSingle(line, m);
  }

  /** The two empty translations end with two quotes. */
  lemma TranslationsCount(m: string)
    requires |m| >= 2 && m[|m| - 1] == DQ && m[|m| - 2] != DQ
    ensures CountEndingWith(["msgstr[0] \"\"", "msgstr[1] \"\""], m) == 0
  {
    var s0, s1 := "msgstr[0] \"\"", "msgstr[1] \"\"";
    assert s0[|s0| - 2] == DQ && s1[|s1| - 2] == DQ;
    QuotesEnd(s0, m);
    QuotesEnd(s1, m);
    assert [s0, s1][1..] == [s1];
  }

  /** A line ending with two quotes does not end with a quoted text whose last
      character is not a quote. */
  lemma QuotesEnd(line: string, m: string)
    requires |line| >= 2 && line[|line| - 2] == DQ
    requires |m| >= 2 && m[|m| - 2] != DQ
    ensures !EndsWith(line, m) && CountEndingWith([line], m) == 0
  {
    NotEndsWith(line, m, |m| - 2);
    CountSingle(line, m);
  }

  /** The msgid line ends with the msgid needle and not the plural one, and the
      other way round. */
  lemma MsgidCounts(text: string, plural: string)
    requires Simple(text) && Simple(plural)
    ensures CountEndingWith(["msgid \"" + text + "\""], "msgid \"" + text + "\"") == 1
    ensures CountEndingWith(["msgid_plural \"" + plural + "\""], "msgid \"" + text + "\"") == 0
    ensures CountEndingWith(["msgid \"" + text + "\""], "msgid_plural \"" + plural + "\"") == 0
    ensures CountEndingWith(["msgid_plural \"" + plural + "\""], "msgid_plural \"" + plural + "\"") == 1
  {
    var m1, m2 := "msgid \"" + text + "\"", "msgid_plural \"" + plural + "\"";
    Heads();
    KeywordHeads();
    KeywordLineMisses("msgid_plural", plural, "msgid", text);
    KeywordLineMisses("msgid", text, "msgid_plural", plural);
    assert m1[|m1| - |m1|..] == m1 && m2[|m2| - |m2|..] == m2;
    CountSingle(m1, m1);
    CountSingle(m2, m1);
    CountSingle(m1, m2);
    CountSingle(m2, m2);
  }

  /** The two keywords: neither ends with the other, and neither holds a double quote. */
  lemma KeywordHeads()
    ensures !EndsWith("msgid", "msgid_plural") && !EndsWith("msgid_plural", "msgid")
    ensures NoChar("msgid", DQ) && NoChar("msgid_plural", DQ)
  {
    NotEndsWith("msgid_plural", "msgid", 0);
  }

  /** A text written by a plain call and again by a countless plural is a single
      msgid in the template, and its plural a single msgid_plural. */
  lemma DupCounts(opts: Options, path: string, date: string, text: string, plural: string, domain: string)
    requires Simple(text) && Simple(plural) && Simple(domain) && opts.domain == Some(domain)
    requires text != [] && plural != [] && NoChar(path, '\n')
    ensures var doc := Generate(opts, date, [SourceFile(path, DupSource(text, plural, domain))]);
            && NumberOfMatches("msgid \"" + text + "\"" + "\n", doc) == 1
            && NumberOfMatches("msgid_plural \"" + plural + "\"" + "\n", doc) == 1
  {
    PluralEntryCounts(path, text, plural);
    DupNeedles(text, plural);
    DupCount(opts, path, date, text, plural, domain, "msgid \"" + text + "\"");
    DupCount(opts, path, date, text, plural, domain, "msgid_plural \"" + plural + "\"");
  }

  /** The count of a quoted line in the template of such a file is its count
      in the one entry. */
  lemma DupCount(opts: Options, path: string, date: string, text: string, plural: string, domain: string, m: string)
    requires Simple(text) && Simple(plural) && Simple(domain) && opts.domain == Some(domain) && NoChar(path, '\n')
    requires NoChar(m, '\n') && NotFieldEnd(m) && m[|m| - 1] == '"' && m[|m| - 2] != '"'
    ensures NumberOfMatches(m + "\n", Generate(opts, date, [SourceFile(path, DupSource(text, plural, domain))]))
            == CountEndingWith(EntryLines(Entry(Key(None, text), Some(plural), [Occurrence(path, 1)])), m)
  {
    var e := Entry(Key(None, text), Some(plural), [Occurrence(path, 1)]);
    DupCatalog(opts, path, text, plural, domain);
    OnePlace(e, path, '\n');
    CountOneEntry(opts, date, e, m);
  }

  /** An entry met in one file only lacks what that file's path lacks. */
  lemma OnePlace(e: Entry, path: string, c: char)
    requires e.refs == [Occurrence(path, 1)] && NoChar(path, c)
    ensures PathsLack(e, c)
  {
  }

  /** The two needles are quoted lines that end neither a header line nor two
      quotes. */
  lemma DupNeedles(text: string, plural: string)
    requires Simple(text) && Simple(plural) && text != [] && plural != []
    ensures var m := "msgid \"" + text + "\"";
            NoChar(m, '\n') && NotFieldEnd(m) && m[|m| - 1] == '"' && m[|m| - 2] != '"'
    ensures var m := "msgid_plural \"" + plural + "\"";
            NoChar(m, '\n') && NotFieldEnd(m) && m[|m| - 1] == '"' && m[|m| - 2] != '"'
  {
    var m1, m2 := "msgid \"" + text + "\"", "msgid_plural \"" + plural + "\"";
    assert m1[|m1| - 2] == text[|text| - 1] && m1[|m1| - 3] != BS;
    assert m2[|m2| - 2] == plural[|plural| - 1] && m2[|m2| - 3] != BS;
  }

  lemma DupAtoms()
    ensures Simple("Name") && Simple("Names") && Simple("test")
    ensures "msgid \"" + "Name" + "\"" + "\n" == "msgid \"Name\"\n"
    ensures "msgid_plural \"" + "Names" + "\"" + "\n" == "msgid_plural \"Names\"\n"
  {
  }

  lemma GeneratesOnce(path: string, date: string)
    requires NoChar(path, '\n')
    ensures var doc := Generate(WithDomain("test"), date, [SourceFile(path, DupSource("Name", "Names", "test"))]);
            && NumberOfMatches("msgid \"Name\"\n", doc) == 1
            && NumberOfMatches("msgid_plural \"Names\"\n", doc) == 1
  {
    DupAtoms();
    DupCounts(WithDomain("test"), path, date, "Name", "Names", "test");
  }

  // ---------------------------------------------------------------------------
  // No configuration: every domain is kept (test.js:294-308)

  /** The source of test.js:296: two plain calls with different domains. */
  function PairSource(text1: string, domain1: string, text2: string, domain2: string): string {
    "<?php _e(" + EArgList(text1, domain1) + "); _e(" + EArgList(text2, domain2) + "); ?>"
  }

  lemma PairLayout(text1: string, domain1: string, text2: string, domain2: string)
    ensures PairSource(text1, domain1, text2, domain2)
            == "<?php " + "_e" + "(" + JoinArgs([" " + Dq(text1), " " + Dq(domain1) + " "]) + ")"
               + ("; " + "_e" + "(" + JoinArgs([" " + Dq(text2), " " + Dq(domain2) + " "]) + ")" + "; ?>")
  {
    JoinTwo(" " + Dq(text1), " " + Dq(domain1) + " ");
    assert EArgList(text1, domain1) == JoinArgs([" " + Dq(text1), " " + Dq(domain1) + " "]);
    JoinTwo(" " + Dq(text2), " " + Dq(domain2) + " ");
    assert EArgList(text2, domain2) == JoinArgs([" " + Dq(text2), " " + Dq(domain2) + " "]);
  }

  lemma PairExtracted(path: string, text1: string, domain1: string, text2: string, domain2: string)
    requires Simple(text1) && Simple(domain1) && Simple(text2) && Simple(domain2)
    ensures ExtractAll([SourceFile(path, PairSource(text1, domain1, text2, domain2))])
            == [Record(text1, None, None, Some(domain1), path, 1), Record(text2, None, None, Some(domain2), path, 1)]
  {
    EArgs(text1, domain1);
    EArgsOneLine(text1, domain1);
    EArgs(text2, domain2);
    RecordOfText(Dq(text1), Dq(domain1), text1, path, 1);
    RecordOfText(Dq(text2), Dq(domain2), text2, path, 1);
    Openings();
    PairLayout(text1, domain1, text2, domain2);
    TwoCallsExtracted(path, "<?php ", "_e", [" " + Dq(text1), " " + Dq(domain1) + " "], "; ",
                      "_e", [" " + Dq(text2), " " + Dq(domain2) + " "], "; ?>",
                      [Dq(text1), Dq(domain1)], [Dq(text2), Dq(domain2)], [Single, Domain], [Single, Domain],
                      Record(text1, None, None, Some(domain1), path, 1), Record(text2, None, None, Some(domain2), path, 1));
  }

  /** Called without a configuration, the extractor keeps the texts of every
      domain. */
  lemma NoDomainMsgids(path: string, date: string, text1: string, domain1: string, text2: string, domain2: string)
    requires Simple(text1) && Simple(domain1) && Simple(text2) && Simple(domain2)
    ensures var files := [SourceFile(path, PairSource(text1, domain1, text2, domain2))];
            && Pipeline.Run(Missing, date, files) == Done(Generate(DefaultOptions, date, files))
            && IndexOf(Generate(DefaultOptions, date, files), "msgid \"" + text1 + "\"\n") != -1
            && IndexOf(Generate(DefaultOptions, date, files), "msgid \"" + text2 + "\"\n") != -1
  {
    var files := [SourceFile(path, PairSource(text1, domain1, text2, domain2))];
    var r1, r2 := Record(text1, None, None, Some(domain1), path, 1), Record(text2, None, None, Some(domain2), path, 1);
    PairExtracted(path, text1, domain1, text2, domain2);
    assert r1 in ExtractAll(files) && r2 in ExtractAll(files);
    UnfilteredMsgid(date, files, r1);
    UnfilteredMsgid(date, files, r2);
  }

  /** Without a filter every record's text shows as a msgid. */
  lemma UnfilteredMsgid(date: string, files: seq<SourceFile>, r: Record)
    requires r in ExtractAll(files) && Simple(r.msgid)
    ensures IndexOf(Generate(DefaultOptions, date, files), "msgid \"" + r.msgid + "\"\n") != -1
  {
    ShowsMsgidOf(DefaultOptions, date, files, r, r.msgid);
  }

  lemma PairAtoms()
    ensures Simple("test2")
  {
  }

  lemma GeneratesWithoutDomain(path: string, date: string)
    ensures var files := [SourceFile(path, PairSource("Name", "test", "Hello World", "test2"))];
            && Pipeline.Run(Missing, date, files).Done?
            && IndexOf(Pipeline.Run(Missing, date, files).pot, "msgid \"Name\"\n") != -1
            && IndexOf(Pipeline.Run(Missing, date, files).pot, "msgid \"Hello World\"\n") != -1
  {
    NameFacts();
    SpreadAtoms();
    PairAtoms();
    NoDomainMsgids(path, date, "Name", "test", "Hello World", "test2");
  }

  // ---------------------------------------------------------------------------
  // Header fields (test.js:311-373)

  /** The full header names the source charset, whatever the files. */
  lemma CharsetField(opts: Options, date: string, files: seq<SourceFile>)
    requires opts.headers.Full?
    ensures IndexOf(Generate(opts, date, files), "X-Poedit-SourceCharset: UTF-8\\n") != -1
  {
    assert HeaderFields(opts, date)[11] == PoeditFields[2];
    CharsetAtoms();
    ShowsField(opts, date, files, 11);
  }

  lemma CharsetAtoms()
    ensures PoeditFields[2] == ("X-Poedit-SourceCharset", "UTF-8")
    ensures Plain("X-Poedit-SourceCharset" + ": " + "UTF-8")
    ensures "X-Poedit-SourceCharset" + ": " + "UTF-8" + "\\n" == "X-Poedit-SourceCharset: UTF-8\\n"
  {
  }

  lemma GeneratesCharset(path: string, date: string)
    ensures IndexOf(Generate(FullOptions, date, [SourceFile(path, XSource("Name", "the name", "test"))]),
                    "X-Poedit-SourceCharset: UTF-8\\n") != -1
  {
    CharsetField(FullOptions, date, [SourceFile(path, XSource("Name", "the name", "test"))]);
  }

  /** Every field the caller adds to the full header is written after the
      standard ones. */
  lemma CustomField(opts: Options, date: string, files: seq<SourceFile>, custom: seq<(string, string)>, j: nat)
    requires opts.headers == Full(custom) && j < |custom| && Plain(custom[j].0 + ": " + custom[j].1)
    ensures IndexOf(Generate(opts, date, files), custom[j].0 + ": " + custom[j].1 + "\\n") != -1
  {
    assert HeaderFields(opts, date)[15 + j] == custom[j];
    ShowsField(opts, date, files, 15 + j);
  }

  /** The options of test.js:337-345. */
  const CustomOptions := FullOptions.(headers := Full([("Hello-World", "This is a test")]))

  lemma CustomAtoms()
    ensures Plain("Hello-World" + ": " + "This is a test")
    ensures "Hello-World" + ": " + "This is a test" + "\\n" == "Hello-World: This is a test\\n"
  {
  }

  lemma GeneratesCustomField(path: string, date: string)
    ensures IndexOf(Generate(CustomOptions, date, [SourceFile(path, XSource("Name", "the name", "test"))]),
                    "Hello-World: This is a test\\n") != -1
  {
    CustomAtoms();
    CustomField(CustomOptions, date, [SourceFile(path, XSource("Name", "the name", "test"))],
                [("Hello-World", "This is a test")], 0);
  }

  /** Without the full header the keyword list is not written: the template then
      holds no `X` unless the caller's values, the path or the texts bring one. */
  lemma MinimalHidesKeywords(opts: Options, path: string, date: string, text: string, ctx: string, domain: string)
    requires Simple(text) && Simple(ctx) && Simple(domain) && opts.domain == Some(domain)
    requires opts.headers == Minimal && OptionsLack(opts, date, 'X')
    requires NoChar(text, 'X') && NoChar(ctx, 'X') && NoChar(domain, 'X') && NoChar(path, 'X')
    ensures IndexOf(Generate(opts, date, [SourceFile(path, XSource(text, ctx, domain))]), "X-Poedit-KeywordsList") == -1
  {
    var r := Record(text, None, Some(ctx), Some(domain), path, 1);
    var cat := [Entry(KeyOf(r), None, [OccurrenceOf(r)])];
    XCatalog(opts, path, text, ctx, domain);
    OnePlace(cat[0], path, 'X');
    assert TextsLack(cat[0], 'X');
    RenderLacks(opts, date, cat, 'X');
    NoKeywordsList(Generate(opts, date, [SourceFile(path, XSource(text, ctx, domain))]));
  }

  /** A document without an `X` has no keyword list field. */
  lemma NoKeywordsList(doc: string)
    requires NoChar(doc, 'X')
    ensures IndexOf(doc, "X-Poedit-KeywordsList") == -1
  {
    AbsentNeedle(doc, "X-Poedit-KeywordsList", 0);
  }

  /** The catalog of a file with one call with a context. */
  lemma XCatalog(opts: Options, path: string, text: string, ctx: string, domain: string)
    requires Simple(text) && Simple(ctx) && Simple(domain) && opts.domain == Some(domain)
    ensures CatalogOf(opts, [SourceFile(path, XSource(text, ctx, domain))])
            == [Entry(Key(Some(ctx), text), None, [Occurrence(path, 1)])]
  {
    XExtracted(path, text, ctx, domain);
    CatalogOne(Record(text, None, Some(ctx), Some(domain), path, 1), opts.domain);
  }

  /** The options of test.js:357-363. */
  const MinimalOptions := FullOptions.(headers := Minimal)

  lemma MinimalAtoms()
    ensures NoChar("Name", 'X') && NoChar("the name", 'X') && NoChar("test", 'X')
  {
  }

  lemma ContactsLackX()
    ensures NoChar(MinimalOptions.bugReport, 'X')
    ensures NoChar(MinimalOptions.lastTranslator, 'X')
    ensures NoChar(MinimalOptions.team, 'X')
  {
  }

  lemma GeneratesWithoutKeywords(path: string, date: string)
    requires NoChar(path, 'X') && NoChar(date, 'X')
    ensures IndexOf(Generate(MinimalOptions, date, [SourceFile(path, XSource("Name", "the name", "test"))]),
                    "X-Poedit-KeywordsList") == -1
  {
    ContextAtoms();
    MinimalAtoms();
    ContactsLackX();
    MinimalHidesKeywords(MinimalOptions, path, date, "Name", "the name", "test");
  }

  // ---------------------------------------------------------------------------
  // File paths (test.js:376-418)

  /** The references comment names the file with forward slashes and the line. */
  lemma PathComment(opts: Options, path: string, date: string, text: string, ctx: string, domain: string)
    requires Simple(text) && Simple(ctx) && Simple(domain) && opts.domain == Some(domain)
    ensures IndexOf(Generate(opts, date, [SourceFile(path, XSource(text, ctx, domain))]),
                    "#: " + NormalisePath(path) + ":1") != -1
  {
    XExtracted(path, text, ctx, domain);
    ShowsRefsOf(opts, date, [SourceFile(path, XSource(text, ctx, domain))], Record(text, None, Some(ctx), Some(domain), path, 1));
    FirstLine(NormalisePath(path));
  }

  /** The references needle of a call on the first line. */
  lemma FirstLine(p: string)
    ensures "#: " + p + ":" + NatToString(1) == "#: " + p + ":1"
  {
    assert NatToString(1) == "1";
  }

  /** Either separator between two pieces of a path is written as a forward slash. */
  lemma NormaliseSlashes(a: string, b: string)
    requires NoChar(a, BS) && NoChar(b, BS)
    ensures NormalisePath(a + "/" + b) == a + "/" + b
    ensures NormalisePath(a + [BS] + b) == a + "/" + b
  {
    var unix, windows := a + "/" + b, a + [BS] + b;
    forall k | 0 <= k < |unix|
      ensures unix[k] != BS && (windows[k] == BS || windows[k] == unix[k])
    {
      if k < |a| {
        assert unix[k] == windows[k] == a[k];
      } else if k > |a| {
        assert unix[k] == windows[k] == b[k - |a| - 1];
      }
    }
    assert NormalisePath(unix) == unix;
    assert NormalisePath(windows) == unix;
  }

  lemma PathAtoms()
    ensures NoChar("test", BS) && NoChar("test.php", BS)
    ensures "#: " + "test/test.php" + ":1" == "#: test/test.php:1"
  {
  }

  lemma PathPieces()
    ensures "test/test.php" == "test" + "/" + "test.php" && "test\\test.php" == "test" + [BS] + "test.php"
  {
  }

  lemma GeneratesPathComment(date: string)
    ensures IndexOf(Generate(FullOptions, date, [SourceFile("test/test.php", XSource("Name", "the name", "test"))]),
                    "#: test/test.php:1") != -1
  {
    ContextAtoms();
    PathAtoms();
    PathPieces();
    NormaliseSlashes("test", "test.php");
    PathComment(FullOptions, "test/test.php", date, "Name", "the name", "test");
  }

  lemma GeneratesWindowsPathComment(date: string)
    ensures IndexOf(Generate(FullOptions, date, [SourceFile("test\\test.php", XSource("Name", "the name", "test"))]),
                    "#: test/test.php:1") != -1
  {
    ContextAtoms();
    PathAtoms();
    PathPieces();
    NormaliseSlashes("test", "test.php");
    PathComment(FullOptions, "test\\test.php", date, "Name", "the name", "test");
  }
}
