/** PHP string literals. A single-quoted literal knows only two escapes, `\\`
    and `\'`; a double-quoted one is decoded with `\"` as its only escape. In
    both, a raw line feed is kept as a line feed. Decoding yields the canonical
    text; escaping for the catalog happens only when it is rendered. */
module Literal {
  import opened Wrappers
  import opened Text

  const SQ: char := '\''
  const DQ: char := '"'
  const BS: char := '\\'

  predicate IsQuote(c: char) {
    c == SQ || c == DQ
  }

  /** `body` can stand between two `q` quotes: a backslash always takes the next
      character with it, and no other `q` appears. This is where a scanner that
      honours escapes would find the literal's end. */
  predicate ClosedBody(q: char, body: string)
    decreases |body|
  {
    if |body| == 0 then true
    else if body[0] == BS then |body| >= 2 && ClosedBody(q, body[2..])
    else body[0] != q && ClosedBody(q, body[1..])
  }

  /** `tok` is one complete quoted literal: it starts and ends with the same
      quote and that final quote is the first one that closes it. */
  predicate IsLiteral(tok: string) {
    |tok| >= 2 && IsQuote(tok[0]) && tok[|tok| - 1] == tok[0]
    && ClosedBody(tok[0], tok[1..|tok| - 1])
  }

  function Body(tok: string): string
    requires |tok| >= 2
  {
    tok[1..|tok| - 1]
  }

  /** The single-quoted grammar: `\\` stands for `\` and `\'` for `'`; every
      other character, including `"` and a lone backslash, stands for itself. */
  function DecodeSingle(body: string): (text: string)
    ensures |text| <= |body|
    decreases |body|
  {
    if |body| == 0 then []
    else if body[0] == BS && |body| >= 2 && (body[1] == BS || body[1] == SQ) then
      [body[1]] + DecodeSingle(body[2..])
    else
      [body[0]] + DecodeSingle(body[1..])
  }

  /** The double-quoted grammar: `\"` stands for `"`; any other backslash pair
      is kept as written, so that the pair never ends the literal. */
  function DecodeDouble(body: string): (text: string)
    ensures |text| <= |body|
    decreases |body|
  {
    if |body| == 0 then []
    else if body[0] == BS && |body| >= 2 then
      (if body[1] == DQ then [DQ] else body[..2]) + DecodeDouble(body[2..])
    else
      [body[0]] + DecodeDouble(body[1..])
  }

  /** A body without backslashes stands for itself, in either grammar. */
  lemma {:induction false} DecodePlain(body: string)
    ensures NoChar(body, BS) ==> DecodeSingle(body) == body && DecodeDouble(body) == body
    decreases |body|
  {
    if body != [] {
      DecodePlain(body[1..]);
    }
  }

  /** The text of a quoted literal token, decoded with its quote's grammar; None
      when `tok` is not a single complete literal. */
  function Unquote(tok: string): (r: Option<string>)
    ensures r.Some? <==> IsLiteral(tok)
    ensures r.Some? && NoChar(Body(tok), BS) ==> r.value == Body(tok)
  {
    if IsLiteral(tok) then
      DecodePlain(Body(tok));
      Some(if tok[0] == SQ then DecodeSingle(Body(tok)) else DecodeDouble(Body(tok)))
    else None
  }

  /** The raw text of a domain argument: a quoted literal loses its quotes but is
      not decoded; anything else (a variable, a constant) is kept verbatim. */
  function DomainToken(arg: string): (r: string)
    ensures IsLiteral(arg) ==> r == Body(arg)
    ensures !IsLiteral(arg) ==> r == arg
  {
    if IsLiteral(arg) then Body(arg) else arg
  }

  // ---------------------------------------------------------------------------
  // Encoders: the partners of the two decoders

  /** Writes `text` as the body of a single-quoted literal. */
  function EncodeSingle(text: string): (body: string)
    ensures ClosedBody(SQ, body)
    ensures |body| >= |text|
    decreases |text|
  {
    if |text| == 0 then []
    else
      var rest := EncodeSingle(text[1..]);
      if text[0] == BS || text[0] == SQ then
        assert ([BS, text[0]] + rest)[2..] == rest;
        [BS, text[0]] + rest
      else
        assert ([text[0]] + rest)[1..] == rest;
        [text[0]] + rest
  }

  /** Writes a backslash-free `text` as the body of a double-quoted literal. */
  function EncodeDouble(text: string): (body: string)
    requires NoChar(text, BS)
    ensures ClosedBody(DQ, body)
    ensures |body| >= |text|
    decreases |text|
  {
    if |text| == 0 then []
    else
      var rest := EncodeDouble(text[1..]);
      if text[0] == DQ then
        assert ([BS, DQ] + rest)[2..] == rest;
        [BS, DQ] + rest
      else
        assert ([text[0]] + rest)[1..] == rest;
        [text[0]] + rest
  }

  lemma {:induction false} DecodeEncodeSingle(text: string)
    ensures DecodeSingle(EncodeSingle(text)) == text
    decreases |text|
  {
    if |text| > 0 {
      var enc, rest := EncodeSingle(text), EncodeSingle(text[1..]);
      DecodeEncodeSingle(text[1..]);
      if text[0] == BS || text[0] == SQ {
        assert enc == [BS, text[0]] + rest;
        assert enc[2..] == rest;
        SingleHead(enc);
      } else {
        assert enc == [text[0]] + rest;
        assert enc[1..] == rest;
      }
      assert DecodeSingle(enc) == [text[0]] + DecodeSingle(rest);
      assert text == [text[0]] + text[1..];
    }
  }

  lemma {:induction false} DecodeEncodeDouble(text: string)
    requires NoChar(text, BS)
    ensures DecodeDouble(EncodeDouble(text)) == text
    decreases |text|
  {
    if |text| > 0 {
      var rest := EncodeDouble(text[1..]);
      DecodeEncodeDouble(text[1..]);
      if text[0] == DQ {
        assert ([BS, DQ] + rest)[2..] == rest;
      } else {
        assert ([text[0]] + rest)[1..] == rest;
      }
      assert text == [text[0]] + text[1..];
    }
  }

  /** Every text survives being written as a single-quoted literal and read back. */
  lemma SingleQuotedRoundTrip(text: string)
    ensures Unquote([SQ] + EncodeSingle(text) + [SQ]) == Some(text)
  {
    var tok := [SQ] + EncodeSingle(text) + [SQ];
    assert Body(tok) == EncodeSingle(text);
    DecodeEncodeSingle(text);
  }

  /** Every backslash-free text survives being written as a double-quoted
      literal and read back. */
  lemma DoubleQuotedRoundTrip(text: string)
    requires NoChar(text, BS)
    ensures Unquote([DQ] + EncodeDouble(text) + [DQ]) == Some(text)
  {
    var tok := [DQ] + EncodeDouble(text) + [DQ];
    assert Body(tok) == EncodeDouble(text);
    DecodeEncodeDouble(text);
  }

  /** The two grammars agree: the same backslash-free text, written in either
      kind of literal, decodes to the same canonical text. */
  lemma QuotingIrrelevant(text: string)
    requires NoChar(text, BS)
    ensures Unquote([SQ] + EncodeSingle(text) + [SQ]) == Unquote([DQ] + EncodeDouble(text) + [DQ])
  {
    SingleQuotedRoundTrip(text);
    DoubleQuotedRoundTrip(text);
  }

  // ---------------------------------------------------------------------------
  // Literal bodies piece by piece

  /** A body with no backslash and no closing quote closes only at its end. */
  lemma {:induction false} ClosedPlain(q: char, body: string)
    requires NoChar(body, BS) && NoChar(body, q)
    ensures ClosedBody(q, body)
    decreases |body|
  {
    if |body| > 0 {
      ClosedPlain(q, body[1..]);
    }
  }

  /** Two bodies that close only at their ends can follow each other. */
  lemma {:induction false} ClosedAppend(q: char, a: string, b: string)
    requires ClosedBody(q, a) && ClosedBody(q, b)
    ensures ClosedBody(q, a + b)
    decreases |a|
  {
    if |a| == 0 {
      assert a + b == b;
    } else if a[0] == BS {
      assert (a + b)[0] == BS && |a + b| >= 2;
      assert (a + b)[2..] == a[2..] + b;
      ClosedAppend(q, a[2..], b);
    } else {
      assert (a + b)[0] == a[0];
      assert (a + b)[1..] == a[1..] + b;
      ClosedAppend(q, a[1..], b);
    }
  }

  /** Decoding a single-quoted body works piece by piece, as long as the first
      piece leaves no backslash waiting for its partner. */
  lemma {:induction false} DecodeSingleAppend(a: string, b: string)
    requires ClosedBody(SQ, a)
    ensures DecodeSingle(a + b) == DecodeSingle(a) + DecodeSingle(b)
    decreases |a|
  {
    if |a| == 0 {
      assert a + b == b;
    } else if a[0] == BS {
      DecodeSingleAppend(a[2..], b);
      SinglePairStep(a, b);
    } else {
      assert (a + b)[1..] == a[1..] + b;
      DecodeSingleAppend(a[1..], b);
    }
  }

  lemma SinglePairStep(a: string, b: string)
    requires |a| >= 2 && a[0] == BS
    requires DecodeSingle(a[2..] + b) == DecodeSingle(a[2..]) + DecodeSingle(b)
    ensures DecodeSingle(a + b) == DecodeSingle(a) + DecodeSingle(b)
  {
    SingleHead(a);
    SingleHeadAppend(a, b);
    calc {
      DecodeSingle(a + b);
      SinglePair(a[1]) + DecodeSingle(a[2..] + b);
      SinglePair(a[1]) + (DecodeSingle(a[2..]) + DecodeSingle(b));
      { AppendAssoc(SinglePair(a[1]), DecodeSingle(a[2..]), DecodeSingle(b)); }
      (SinglePair(a[1]) + DecodeSingle(a[2..])) + DecodeSingle(b);
      DecodeSingle(a) + DecodeSingle(b);
    }
  }

  lemma SingleHeadAppend(a: string, b: string)
    requires |a| >= 2 && a[0] == BS
    ensures DecodeSingle(a + b) == SinglePair(a[1]) + DecodeSingle(a[2..] + b)
  {
    var ab := a + b;
    assert |ab| >= 2 && ab[0] == BS && ab[1] == a[1];
    assert ab[2..] == a[2..] + b;
    SingleHead(ab);
  }

  /** What a backslash followed by `c` stands for in a single-quoted body. */
  function SinglePair(c: char): string {
    if c == BS || c == SQ then [c] else [BS, c]
  }

  /** How a single-quoted body that starts with a backslash decodes. */
  lemma SingleHead(s: string)
    requires |s| >= 2 && s[0] == BS
    ensures DecodeSingle(s) == SinglePair(s[1]) + DecodeSingle(s[2..])
  {
    if s[1] != BS && s[1] != SQ {
      SingleLoneBackslash(s);
    }
  }

  /** A backslash before anything but a backslash or a quote stands for itself,
      and so does the character after it. */
  lemma SingleLoneBackslash(s: string)
    requires |s| >= 2 && s[0] == BS && s[1] != BS && s[1] != SQ
    ensures DecodeSingle(s) == [BS, s[1]] + DecodeSingle(s[2..])
  {
    assert s[1..][1..] == s[2..];
  }

  /** The same for a double-quoted body. */
  lemma {:induction false} DecodeDoubleAppend(a: string, b: string)
    requires ClosedBody(DQ, a)
    ensures DecodeDouble(a + b) == DecodeDouble(a) + DecodeDouble(b)
    decreases |a|
  {
    if |a| == 0 {
      assert a + b == b;
    } else if a[0] == BS {
      assert (a + b)[2..] == a[2..] + b;
      assert (a + b)[..2] == a[..2];
      DecodeDoubleAppend(a[2..], b);
    } else {
      assert (a + b)[1..] == a[1..] + b;
      DecodeDoubleAppend(a[1..], b);
    }
  }

  /** A literal with no backslash and no closing quote inside stands for its
      body, and so does it as a domain. */
  lemma PlainLiteral(q: char, body: string)
    requires IsQuote(q) && NoChar(body, BS) && NoChar(body, q)
    ensures IsLiteral([q] + body + [q])
    ensures Unquote([q] + body + [q]) == Some(body)
    ensures DomainToken([q] + body + [q]) == body
  {
    var tok := [q] + body + [q];
    assert Body(tok) == body;
    ClosedPlain(q, body);
  }

  /** The domain filter compares the raw token with the configured domain, so a
      domain `d` free of quotes and backslashes is matched by exactly three
      spellings of the argument: `d` written bare (a constant or a variable),
      `'d'` and `"d"`. */
  lemma {:induction false} DomainMatches(tok: string, d: string)
    requires NoChar(d, SQ) && NoChar(d, DQ) && NoChar(d, BS)
    ensures DomainToken(tok) == d <==> tok == d || tok == [SQ] + d + [SQ] || tok == [DQ] + d + [DQ]
  {
    PlainLiteral(SQ, d);
    PlainLiteral(DQ, d);
    if IsLiteral(tok) && DomainToken(tok) == d {
      assert tok == [tok[0]] + Body(tok) + [tok[|tok| - 1]];
    }
  }
}
