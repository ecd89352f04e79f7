/** The call extractor: finds every call of a WordPress translation function in
    PHP source, wherever it sits (inside another call, after other code), and
    turns its literal arguments into an extraction record according to the
    function's role signature. A call whose text, plural or context argument is
    not a quoted literal, or whose parentheses never close, yields no record;
    scanning simply carries on. */
module Extractor {
  import opened Wrappers
  import opened Text
  import opened Literal
  import opened Scanner

  /** What an argument position of a translation function means. */
  datatype Role = Single | Plural | Count | Context | Domain

  /** The recognised functions and the meaning of each of their arguments. */
  function Signature(name: string): (roles: Option<seq<Role>>)
  {
    if |name| == 2 && (name == "__" || name == "_e") then Some([Single, Domain])
    else if |name| == 2 && name == "_x" then Some([Single, Context, Domain])
    else if |name| == 2 && name == "_n" then Some([Single, Plural, Count, Domain])
    else if |name| == 3 && name == "_nx" then Some([Single, Plural, Count, Context, Domain])
    else if |name| == 7 && name == "_n_noop" then Some([Single, Plural, Domain])
    else if |name| == 8 && name == "_nx_noop" then Some([Single, Plural, Context, Domain])
    else None
  }

  /** Every recognised name is an identifier that starts with `_`. */
  lemma SignatureShape(name: string)
    requires Signature(name).Some?
    ensures |name| >= 2 && name[0] == '_'
    ensures forall k :: 0 <= k < |name| ==> IdentChar(name[k])
  {
  }

  predicate IdentChar(c: char) {
    ('a' <= c <= 'z') || ('A' <= c <= 'Z') || ('0' <= c <= '9') || c == '_'
  }

  /** What the arguments of one call say, role by role. */
  datatype Fields = Fields(single: Option<string>, plural: Option<string>,
                           context: Option<string>, domain: Option<string>)

  const NoFields := Fields(None, None, None, None)

  predicate IsTextRole(r: Role) {
    r == Single || r == Plural || r == Context
  }

  /** Reads `args` against `roles` in order. Text, plural and context must be
      quoted literals and are decoded; a count is skipped; a domain is kept as
      its raw token. Only a domain may be missing from the end. */
  function Assign(roles: seq<Role>, args: seq<string>, f: Fields): Option<Fields>
    decreases |roles|
  {
    if |roles| == 0 then Some(f)
    else if |args| == 0 then
      if roles[0] == Domain then Assign(roles[1..], args, f) else None
    else
      var a := args[0];
      match roles[0]
      case Count => Assign(roles[1..], args[1..], f)
      case Domain => Assign(roles[1..], args[1..], f.(domain := Some(DomainToken(a))))
      case Single =>
        (match Unquote(a)
         case None => None
         case Some(t) => Assign(roles[1..], args[1..], f.(single := Some(t))))
      case Plural =>
        (match Unquote(a)
         case None => None
         case Some(t) => Assign(roles[1..], args[1..], f.(plural := Some(t))))
      case Context =>
        (match Unquote(a)
         case None => None
         case Some(t) => Assign(roles[1..], args[1..], f.(context := Some(t))))
  }

  /** The arguments fit the roles: every text role's argument is a literal, and
      any argument missing from the end is a domain. */
  predicate Fits(roles: seq<Role>, args: seq<string>) {
    && (forall k :: 0 <= k < |roles| && |args| <= k ==> roles[k] == Domain)
    && (forall k :: 0 <= k < |roles| && k < |args| && IsTextRole(roles[k]) ==> IsLiteral(args[k]))
  }

  /** When a call yields fields at all. */
  lemma {:induction false} AssignAccepts(roles: seq<Role>, args: seq<string>, f: Fields)
    ensures Assign(roles, args, f).Some? <==> Fits(roles, args)
    decreases |roles|
  {
    if |roles| > 0 {
      if |args| == 0 {
        AssignAccepts(roles[1..], args, f);
        assert roles[0] != Domain ==> !Fits(roles, args);
      } else {
        var a := args[0];
        var f' := match roles[0]
          case Domain => f.(domain := Some(DomainToken(a)))
          case Single => f.(single := Unquote(a))
          case Plural => f.(plural := Unquote(a))
          case Context => f.(context := Unquote(a))
          case Count => f;
        AssignAccepts(roles[1..], args[1..], f');
        forall k | 1 <= k < |roles|
          ensures (|args| <= k ==> roles[k] == Domain) <==> (|args[1..]| <= k - 1 ==> roles[1..][k - 1] == Domain)
          ensures (k < |args| && IsTextRole(roles[k]) ==> IsLiteral(args[k]))
                  <==> (k - 1 < |args[1..]| && IsTextRole(roles[1..][k - 1]) ==> IsLiteral(args[1..][k - 1]))
        {
        }
        if Fits(roles, args) {
          assert Fits(roles[1..], args[1..]);
        } else if Fits(roles[1..], args[1..]) {
          assert IsTextRole(roles[0]) && !IsLiteral(a);
        }
      }
    }
  }

  /** Each role the call carries lands in its own field: the field holds the
      role's argument, decoded, or raw for the domain. */
  lemma {:induction false} AssignPlaces(roles: seq<Role>, args: seq<string>, f: Fields)
    requires Assign(roles, args, f).Some?
    requires forall i, j :: 0 <= i < j < |roles| ==> roles[i] != roles[j]
    ensures var g := Assign(roles, args, f).value;
      && (forall k :: 0 <= k < |roles| && k < |args| && roles[k] == Single ==> g.single == Unquote(args[k]))
      && (forall k :: 0 <= k < |roles| && k < |args| && roles[k] == Plural ==> g.plural == Unquote(args[k]))
      && (forall k :: 0 <= k < |roles| && k < |args| && roles[k] == Context ==> g.context == Unquote(args[k]))
      && (forall k :: 0 <= k < |roles| && k < |args| && roles[k] == Domain ==> g.domain == Some(DomainToken(args[k])))
    decreases |roles|
  {
    if |roles| > 0 && |args| > 0 {
      var a := args[0];
      var f' := NextFields(roles[0], a, f);
      assert Assign(roles, args, f) == Assign(roles[1..], args[1..], f');
      AssignPlaces(roles[1..], args[1..], f');
      AssignKeeps(roles[1..], args[1..], f');
      assert roles[0] !in roles[1..];
      forall k | 1 <= k < |roles|
        ensures roles[k] == roles[1..][k - 1]
      {
      }
    }
  }

  /** The fields after reading one argument for one role. */
  function NextFields(r: Role, a: string, f: Fields): Fields {
    match r
    case Domain => f.(domain := Some(DomainToken(a)))
    case Single => f.(single := Unquote(a))
    case Plural => f.(plural := Unquote(a))
    case Context => f.(context := Unquote(a))
    case Count => f
  }

  /** A field whose role the call does not carry (or, for the domain, whose
      argument is missing) keeps what it had. */
  lemma {:induction false} AssignKeeps(roles: seq<Role>, args: seq<string>, f: Fields)
    requires Assign(roles, args, f).Some?
    ensures var g := Assign(roles, args, f).value;
      && (Single !in roles ==> g.single == f.single)
      && (Plural !in roles ==> g.plural == f.plural)
      && (Context !in roles ==> g.context == f.context)
      && ((forall k :: 0 <= k < |roles| && k < |args| ==> roles[k] != Domain) ==> g.domain == f.domain)
    decreases |roles|
  {
    if |roles| > 0 {
      if |args| == 0 {
        AssignKeeps(roles[1..], args, f);
      } else {
        var f' := NextFields(roles[0], args[0], f);
        assert Assign(roles, args, f) == Assign(roles[1..], args[1..], f');
        AssignKeeps(roles[1..], args[1..], f');
        assert roles[0] in roles;
        forall k | 1 <= k < |roles| && k < |args|
          ensures roles[k] == roles[1..][k - 1]
        {
        }
      }
    }
  }

  /** A call site: the decoded texts, the raw domain token, where it was found. */
  datatype Record = Record(msgid: string, plural: Option<string>, context: Option<string>,
                           domain: Option<string>, path: string, line: nat)

  /** The record a call with these roles and cleaned arguments yields. */
  function MakeRecord(roles: seq<Role>, args: seq<string>, path: string, line: nat): Option<Record>
  {
    match Assign(roles, args, NoFields)
    case None => None
    case Some(g) =>
      if g.single.None? then None
      else Some(Record(g.single.value, g.plural, g.context, g.domain, path, line))
  }

  // ---------------------------------------------------------------------------
  // Finding calls

  function Newlines(s: string): (n: nat)
    ensures n <= |s|
  {
    if |s| == 0 then 0 else (if s[0] == '\n' then 1 else 0) + Newlines(s[1..])
  }

  lemma {:induction false} NewlinesAppend(a: string, b: string)
    ensures Newlines(a + b) == Newlines(a) + Newlines(b)
  {
    if a == [] {
      assert a + b == b;
    } else {
      assert (a + b)[1..] == a[1..] + b;
      NewlinesAppend(a[1..], b);
    }
  }

  /** The 1-based line on which position `i` lies. */
  function LineAt(s: string, i: nat): (line: nat)
    requires i <= |s|
    ensures 1 <= line <= i + 1
  {
    1 + Newlines(s[..i])
  }

  lemma LineAtMonotone(s: string, i: nat, j: nat)
    requires i <= j <= |s|
    ensures LineAt(s, i) <= LineAt(s, j)
  {
    assert s[..j] == s[..i] + s[i..j];
    NewlinesAppend(s[..i], s[i..j]);
  }

  /** The end of the identifier that starts at `i`. */
  function IdentEnd(s: string, i: nat): (j: nat)
    requires i <= |s|
    ensures i <= j <= |s|
    decreases |s| - i
  {
    if i < |s| && IdentChar(s[i]) then IdentEnd(s, i + 1) else i
  }

  function SkipSpace(s: string, i: nat): (j: nat)
    requires i <= |s|
    ensures i <= j <= |s|
    decreases |s| - i
  {
    if i < |s| && IsSpace(s[i]) then SkipSpace(s, i + 1) else i
  }

  lemma {:induction false} IdentEndExact(s: string, i: nat, j: nat)
    requires i <= j <= |s|
    requires forall k :: i <= k < j ==> IdentChar(s[k])
    requires j == |s| || !IdentChar(s[j])
    ensures IdentEnd(s, i) == j
    decreases j - i
  {
    if i < j {
      IdentEndExact(s, i + 1, j);
    }
  }

  lemma {:induction false} SkipSpaceExact(s: string, i: nat, j: nat)
    requires i <= j <= |s|
    requires forall k :: i <= k < j ==> IsSpace(s[k])
    requires j == |s| || !IsSpace(s[j])
    ensures SkipSpace(s, i) == j
    decreases j - i
  {
    if i < j {
      SkipSpaceExact(s, i + 1, j);
    }
  }

  /** A name may start at `i`: it is not the tail of a longer identifier. */
  predicate NameStart(s: string, i: nat)
    requires i < |s|
  {
    i == 0 || !IdentChar(s[i - 1])
  }

  /** A call site found by the scanner: the roles of the recognised name, the
      text between its parentheses, and the line on which the name starts. */
  datatype Call = Call(roles: seq<Role>, inner: string, line: nat)

  /** The call whose name starts at position `i`, if there is one: a
      recognised name, optional whitespace, `(`, then arguments up to the
      matching `)`. */
  function CallAt(s: string, i: nat): (r: Option<Call>)
    requires i < |s|
  {
    if s[i] != '_' || !NameStart(s, i) then None
    else
      var e := IdentEnd(s, i);
      match Signature(s[i..e])
      case None => None
      case Some(roles) => CallArgs(s, i, SkipSpace(s, e), roles)
  }

  /** The call of a recognised name at `i` whose argument list should open at
      `o`: `None` unless a `(` stands there and a matching `)` follows. */
  function CallArgs(s: string, i: nat, o: nat, roles: seq<Role>): (r: Option<Call>)
    requires i < o <= |s|
    ensures r.Some? ==> o < |s| && s[o] == '(' && r.value.roles == roles
    ensures r.Some? ==> r.value.line == LineAt(s, i)
  {
    if o == |s| || s[o] != '(' then None
    else
      match Bracketed(s[o + 1..])
      case None => None
      case Some(inner) => Some(Call(roles, inner, LineAt(s, i)))
  }

  /** The calls whose names start at or after `i`, in source order. */
  function CallsFrom(s: string, i: nat): (cs: seq<Call>)
    requires i <= |s|
    decreases |s| - i
  {
    if i == |s| then []
    else
      var rest := CallsFrom(s, i + 1);
      match CallAt(s, i)
      case None => rest
      case Some(c) => [c] + rest
  }

  /** The record a call yields, if its arguments fill the roles of its name. */
  function Interpret(path: string, c: Call): (r: Option<Record>)
    ensures r.Some? ==> r.value.path == path && r.value.line == c.line
  {
    MakeRecord(c.roles, SplitArgs(c.inner), path, c.line)
  }

  /** The records of the calls that yield one, in order. */
  function Records(path: string, cs: seq<Call>): (rs: seq<Record>)
    ensures |rs| <= |cs|
  {
    if cs == [] then []
    else
      match Interpret(path, cs[0])
      case None => Records(path, cs[1..])
      case Some(r) => [r] + Records(path, cs[1..])
  }

  /** The records of every translation call in a source file. */
  function Extract(path: string, s: string): (rs: seq<Record>)
  {
    Records(path, CallsFrom(s, 0))
  }

  /** Every record names the file it was found in. */
  lemma {:induction false} RecordsPath(path: string, cs: seq<Call>)
    ensures forall k :: 0 <= k < |Records(path, cs)| ==> Records(path, cs)[k].path == path
  {
    if cs != [] {
      RecordsPath(path, cs[1..]);
    }
  }

  // ---------------------------------------------------------------------------
  // Order of the records

  predicate CallsAbove(cs: seq<Call>, lo: nat) {
    forall k :: 0 <= k < |cs| ==> lo <= cs[k].line
  }

  predicate CallsSorted(cs: seq<Call>) {
    forall a, b :: 0 <= a < b < |cs| ==> cs[a].line <= cs[b].line
  }

  predicate RecordsSorted(rs: seq<Record>) {
    forall a, b :: 0 <= a < b < |rs| ==> rs[a].line <= rs[b].line
  }

  /** Calls come out in source order, each on a line between the starting
      position's line and the last line of the file. */
  lemma {:induction false} CallsFromOrdered(s: string, i: nat)
    requires i <= |s|
    ensures CallsAbove(CallsFrom(s, i), LineAt(s, i))
    ensures forall k :: 0 <= k < |CallsFrom(s, i)| ==> CallsFrom(s, i)[k].line <= LineAt(s, |s|)
    ensures CallsSorted(CallsFrom(s, i))
    decreases |s| - i
  {
    if i < |s| {
      CallsFromOrdered(s, i + 1);
      LineAtMonotone(s, i, i + 1);
      LineAtMonotone(s, i, |s|);
    }
  }

  /** Interpretation keeps a lower bound on the lines. */
  lemma {:induction false} RecordsAbove(path: string, cs: seq<Call>, lo: nat)
    requires forall k :: 0 <= k < |cs| ==> lo <= cs[k].line
    ensures forall k :: 0 <= k < |Records(path, cs)| ==> lo <= Records(path, cs)[k].line
  {
    if cs != [] {
      RecordsAbove(path, cs[1..], lo);
    }
  }

  /** Interpretation keeps an upper bound on the lines. */
  lemma {:induction false} RecordsBelow(path: string, cs: seq<Call>, hi: nat)
    requires forall k :: 0 <= k < |cs| ==> cs[k].line <= hi
    ensures forall k :: 0 <= k < |Records(path, cs)| ==> Records(path, cs)[k].line <= hi
  {
    if cs != [] {
      RecordsBelow(path, cs[1..], hi);
    }
  }

  /** Interpretation keeps the calls' order: a sorted call list yields a sorted
      record list. */
  lemma {:induction false} RecordsKeepOrder(path: string, cs: seq<Call>)
    requires CallsSorted(cs)
    ensures RecordsSorted(Records(path, cs))
  {
    if cs != [] {
      RecordsKeepOrder(path, cs[1..]);
      RecordsAbove(path, cs[1..], cs[0].line);
      SortedStep(path, cs);
    }
  }

  /** The records stay sorted when the first call lies no lower than every
      record of the rest, which is sorted. */
  lemma SortedStep(path: string, cs: seq<Call>)
    requires cs != []
    requires RecordsSorted(Records(path, cs[1..]))
    requires forall k :: 0 <= k < |Records(path, cs[1..])| ==> cs[0].line <= Records(path, cs[1..])[k].line
    ensures RecordsSorted(Records(path, cs))
  {
    match Interpret(path, cs[0])
    case None =>
    case Some(r) =>
      SortedCons(r, Records(path, cs[1..]));
  }

  /** A record no later than any of a sorted list keeps it sorted in front. */
  lemma SortedCons(r: Record, rest: seq<Record>)
    requires RecordsSorted(rest)
    requires forall k :: 0 <= k < |rest| ==> r.line <= rest[k].line
    ensures RecordsSorted([r] + rest)
  {
  }

  /** Every record of a file lies on one of its lines, and records come out in
      the order of their lines. */
  lemma ExtractOrdered(path: string, s: string)
    ensures forall k :: 0 <= k < |Extract(path, s)| ==> 1 <= Extract(path, s)[k].line <= 1 + Newlines(s)
    ensures RecordsSorted(Extract(path, s))
  {
    CallsFromOrdered(s, 0);
    assert s[..|s|] == s;
    RecordsAbove(path, CallsFrom(s, 0), 1);
    RecordsBelow(path, CallsFrom(s, 0), LineAt(s, |s|));
    RecordsKeepOrder(path, CallsFrom(s, 0));
  }

  /** No name of a recognised function can start in `s[i..j]`. */
  predicate NoNameIn(s: string, i: nat, j: nat)
    requires j <= |s|
  {
    forall k :: i <= k < j ==> s[k] != '_' || !NameStart(s, k)
  }

  /** Where no name can start, there is no call. */
  lemma {:induction false} SkipQuiet(s: string, i: nat, j: nat)
    requires i <= j <= |s|
    requires NoNameIn(s, i, j)
    ensures CallsFrom(s, i) == CallsFrom(s, j)
    decreases j - i
  {
    if i < j {
      SkipQuiet(s, i + 1, j);
    }
  }

  /** A recognised call laid out in the source is found as such: the name
      spans `i..e`, whitespace runs up to the `(` at `o`, and the arguments,
      clear of any top-level `)`, run up to the `)` at `c`. */
  lemma CallAtShape(s: string, i: nat, e: nat, o: nat, c: nat, roles: seq<Role>)
    requires i < e <= o < c < |s|
    requires NameStart(s, i)
    requires Signature(s[i..e]) == Some(roles)
    requires forall k :: e <= k < o ==> IsSpace(s[k])
    requires s[o] == '(' && s[c] == ')'
    requires Clear(0, s[o + 1..c], ')')
    ensures CallAt(s, i) == Some(Call(roles, s[o + 1..c], LineAt(s, i)))
  {
    assert !IdentChar(s[e]);
    NameEnd(s, i, e, roles);
    SkipSpaceExact(s, e, o);
    assert s[o + 1..] == s[o + 1..c] + ")" + s[c + 1..];
    BracketedAfter(s[o + 1..c], s[c + 1..]);
  }

  lemma NameEnd(s: string, i: nat, e: nat, roles: seq<Role>)
    requires i < e <= |s|
    requires Signature(s[i..e]) == Some(roles)
    requires e == |s| || !IdentChar(s[e])
    ensures IdentEnd(s, i) == e
  {
    assert forall k :: i <= k < e ==> s[k] == s[i..e][k - i];
    IdentEndExact(s, i, e);
  }

  // ---------------------------------------------------------------------------
  // Sources laid out piece by piece

  /** A stretch without an underscore holds no call. */
  lemma QuietRun(s: string, i: nat, j: nat)
    requires i <= j <= |s| && NoChar(s[i..j], '_')
    ensures CallsFrom(s, i) == CallsFrom(s, j)
  {
    forall k | i <= k < j
      ensures s[k] != '_'
    {
      assert s[k] == s[i..j][k - i];
    }
    SkipQuiet(s, i, j);
  }

  /** A tail without an underscore holds no call at all. */
  lemma QuietEnd(s: string, i: nat)
    requires i <= |s| && NoChar(s[i..], '_')
    ensures CallsFrom(s, i) == []
  {
    assert s[i..|s|] == s[i..];
    QuietRun(s, i, |s|);
  }

  /** `name(inner)` written at `i`: the name spans `i..e`, the argument text
      lies between the `(` at `e` and the `)` at `c`. */
  predicate WrittenAt(s: string, i: nat, e: nat, c: nat, name: string, inner: string) {
    && e == i + |name| && c == e + 1 + |inner| && c < |s|
    && s[i..e] == name && s[e] == '(' && s[e + 1..c] == inner && s[c] == ')'
  }

  /** A recognised name at `i`, directly followed by its parenthesised
      arguments, is the next call; scanning resumes after the `)`. */
  lemma CallStep(s: string, i: nat, e: nat, c: nat, name: string, inner: string, roles: seq<Role>)
    requires WrittenAt(s, i, e, c, name, inner)
    requires i == 0 || !IdentChar(s[i - 1])
    requires Signature(name) == Some(roles)
    requires Clear(0, inner, ')') && NoChar(inner, '_')
    ensures CallsFrom(s, i) == [Call(roles, inner, LineAt(s, i))] + CallsFrom(s, c + 1)
  {
    CallAtWritten(s, i, e, c, name, inner, roles);
    CallsFromHere(s, i, Call(roles, inner, LineAt(s, i)));
    TailSkip(s, i, e, c, name, inner, roles);
  }

  lemma CallAtWritten(s: string, i: nat, e: nat, c: nat, name: string, inner: string, roles: seq<Role>)
    requires WrittenAt(s, i, e, c, name, inner)
    requires i == 0 || !IdentChar(s[i - 1])
    requires Signature(name) == Some(roles)
    requires Clear(0, inner, ')')
    ensures i < |s| && CallAt(s, i) == Some(Call(roles, inner, LineAt(s, i)))
  {
    CallAtShape(s, i, e, e, c, roles);
  }

  lemma TailSkip(s: string, i: nat, e: nat, c: nat, name: string, inner: string, roles: seq<Role>)
    requires WrittenAt(s, i, e, c, name, inner)
    requires Signature(name) == Some(roles)
    requires NoChar(inner, '_')
    ensures CallsFrom(s, i + 1) == CallsFrom(s, c + 1)
  {
    SignatureShape(name);
    CallTailQuiet(s, i, e, c, name, inner);
    SkipQuiet(s, i + 1, c + 1);
  }

  lemma CallsFromHere(s: string, i: nat, call: Call)
    requires i < |s| && CallAt(s, i) == Some(call)
    ensures CallsFrom(s, i) == [call] + CallsFrom(s, i + 1)
  {
  }

  /** After its first character, `name(inner)` offers no place where a name
      could start: the rest of the name continues an identifier, and the
      parentheses and arguments hold no underscore. */
  lemma CallTailQuiet(s: string, i: nat, e: nat, c: nat, name: string, inner: string)
    requires WrittenAt(s, i, e, c, name, inner)
    requires forall k :: 0 <= k < |name| ==> IdentChar(name[k])
    requires NoChar(inner, '_')
    ensures NoNameIn(s, i + 1, c + 1)
  {
    forall k | i + 1 <= k < c + 1
      ensures s[k] != '_' || !NameStart(s, k)
    {
      if k <= e {
        assert s[k - 1] == s[i..e][k - 1 - i];
      } else if k < c {
        assert s[k] == s[e + 1..c][k - e - 1];
      }
    }
  }

  /** Where the parts of `pre name(inner) post` lie. */
  lemma CallLayout(s: string, pre: string, name: string, inner: string, post: string, i: nat, e: nat, c: nat)
    requires s == pre + name + "(" + inner + ")" + post
    requires i == |pre| && e == i + |name| && c == e + 1 + |inner|
    ensures WrittenAt(s, i, e, c, name, inner)
    ensures s[..i] == pre && s[c + 1..] == post && s[..c + 1] == pre + name + "(" + inner + ")"
  {
    assert s == pre + name + "(" + inner + (")" + post);
    assert s[i..e] == name;
    assert s[e + 1..c] == inner;
    assert s[..c + 1] == pre + name + "(" + inner + ")";
  }

  /** The records a call yields: none or one. */
  function Yield(r: Option<Record>): (rs: seq<Record>)
    ensures r.None? ==> rs == []
    ensures r.Some? ==> rs == [r.value]
  {
    match r
    case None => []
    case Some(x) => [x]
  }

  lemma RecordsOne(path: string, c: Call)
    ensures Records(path, [c]) == Yield(Interpret(path, c))
  {
    assert [c][1..] == [];
  }

  lemma RecordsTwo(path: string, c: Call, d: Call)
    ensures Records(path, [c, d]) == Yield(Interpret(path, c)) + Yield(Interpret(path, d))
  {
    assert [c, d][1..] == [d];
    RecordsOne(path, d);
  }

  /** The calls of `pre name(inner) post` when nothing around the call has an
      underscore. */
  lemma OnlyCall(pre: string, name: string, inner: string, post: string, roles: seq<Role>)
    requires Signature(name) == Some(roles)
    requires pre == [] || !IdentChar(pre[|pre| - 1])
    requires NoChar(pre, '_') && NoChar(post, '_')
    requires Clear(0, inner, ')') && NoChar(inner, '_')
    ensures CallsFrom(pre + name + "(" + inner + ")" + post, 0) == [Call(roles, inner, 1 + Newlines(pre))]
  {
    var s := pre + name + "(" + inner + ")" + post;
    var i := |pre|;
    var e := i + |name|;
    var c := e + 1 + |inner|;
    CallLayout(s, pre, name, inner, post, i, e, c);
    CallIn(s, i, e, c, name, inner, roles);
    LineOf(s, i, pre);
  }

  /** A file whose only call is `name(inner)` at `i`. */
  lemma CallIn(s: string, i: nat, e: nat, c: nat, name: string, inner: string, roles: seq<Role>)
    requires WrittenAt(s, i, e, c, name, inner)
    requires i == 0 || !IdentChar(s[i - 1])
    requires NoChar(s[..i], '_') && NoChar(s[c + 1..], '_')
    requires Signature(name) == Some(roles)
    requires Clear(0, inner, ')') && NoChar(inner, '_')
    ensures CallsFrom(s, 0) == [Call(roles, inner, LineAt(s, i))]
  {
    assert s[0..i] == s[..i];
    LastCall(s, 0, i, e, c, name, inner, roles);
  }

  /** From `from` on, the only call is `name(inner)` at `i`. */
  lemma LastCall(s: string, from: nat, i: nat, e: nat, c: nat, name: string, inner: string, roles: seq<Role>)
    requires WrittenAt(s, i, e, c, name, inner) && from <= i
    requires i == 0 || !IdentChar(s[i - 1])
    requires NoChar(s[from..i], '_') && NoChar(s[c + 1..], '_')
    requires Signature(name) == Some(roles)
    requires Clear(0, inner, ')') && NoChar(inner, '_')
    ensures CallsFrom(s, from) == [Call(roles, inner, LineAt(s, i))]
  {
    QuietRun(s, from, i);
    CallStep(s, i, e, c, name, inner, roles);
    QuietEnd(s, c + 1);
  }

  /** The line of a position is one more than the newlines before it. */
  lemma LineOf(s: string, i: nat, pre: string)
    requires i <= |s| && s[..i] == pre
    ensures LineAt(s, i) == 1 + Newlines(pre)
  {
  }

  /** A call at `i` with no underscore before it is the first call found;
      the rest are those after its `)`. */
  lemma FirstCall(s: string, i: nat, e: nat, c: nat, name: string, inner: string, roles: seq<Role>)
    requires WrittenAt(s, i, e, c, name, inner)
    requires i == 0 || !IdentChar(s[i - 1])
    requires NoChar(s[..i], '_')
    requires Signature(name) == Some(roles)
    requires Clear(0, inner, ')') && NoChar(inner, '_')
    ensures CallsFrom(s, 0) == [Call(roles, inner, LineAt(s, i))] + CallsFrom(s, c + 1)
  {
    assert s[0..i] == s[..i];
    QuietRun(s, 0, i);
    CallStep(s, i, e, c, name, inner, roles);
  }

  // ---------------------------------------------------------------------------
  // Calls after a boundary

  /** The calls `cs` as found `n` lines further down. */
  function Shifted(cs: seq<Call>, n: nat): (r: seq<Call>)
    ensures |r| == |cs|
  {
    if cs == [] then [] else [cs[0].(line := cs[0].line + n)] + Shifted(cs[1..], n)
  }

  function ShiftedAt(r: Option<Call>, n: nat): Option<Call> {
    match r
    case None => None
    case Some(c) => Some(c.(line := c.line + n))
  }

  /** Position `d` of `s` cannot continue an identifier that ends before it. */
  predicate Boundary(s: string, d: nat)
    requires d <= |s|
  {
    d == 0 || !IdentChar(s[d - 1])
  }

  lemma {:induction false} IdentEndShift(s: string, d: nat, t: string, k: nat)
    requires d <= |s| && s[d..] == t && k <= |t|
    ensures IdentEnd(s, d + k) == d + IdentEnd(t, k)
    decreases |t| - k
  {
    if k < |t| {
      assert s[d + k] == t[k];
      IdentEndShift(s, d, t, k + 1);
    }
  }

  lemma {:induction false} SkipSpaceShift(s: string, d: nat, t: string, k: nat)
    requires d <= |s| && s[d..] == t && k <= |t|
    ensures SkipSpace(s, d + k) == d + SkipSpace(t, k)
    decreases |t| - k
  {
    if k < |t| {
      assert s[d + k] == t[k];
      SkipSpaceShift(s, d, t, k + 1);
    }
  }

  lemma LineAtShift(s: string, d: nat, t: string, k: nat)
    requires d <= |s| && s[d..] == t && k <= |t|
    ensures LineAt(s, d + k) == LineAt(t, k) + Newlines(s[..d])
  {
    assert s[..d + k] == s[..d] + t[..k];
    NewlinesAppend(s[..d], t[..k]);
  }

  lemma CallArgsShift(s: string, d: nat, t: string, k: nat, o: nat, roles: seq<Role>,
                      i: nat, so: nat, n: nat)
    requires d <= |s| && s[d..] == t && k < o <= |t|
    requires i == d + k && so == d + o && n == Newlines(s[..d])
    ensures CallArgs(s, i, so, roles) == ShiftedAt(CallArgs(t, k, o, roles), n)
  {
    LineAtShift(s, d, t, k);
    if o < |t| {
      assert s[d + o] == t[o];
      assert s[d + o + 1..] == t[o + 1..];
    }
  }

  /** Past a boundary, a call is found just as in the text after it, lines
      shifted. */
  lemma CallAtShift(s: string, d: nat, t: string, k: nat, i: nat, n: nat)
    requires d <= |s| && s[d..] == t && k < |t| && Boundary(s, d)
    requires i == d + k && n == Newlines(s[..d])
    ensures i < |s| && CallAt(s, i) == ShiftedAt(CallAt(t, k), n)
  {
    StartShift(s, d, t, k, i);
    if t[k] == '_' && NameStart(t, k) {
      var e := IdentEnd(t, k);
      var se := d + e;
      NameShiftAt(s, d, t, k, i, e, se);
      var o := SkipSpace(t, e);
      var so := d + o;
      SkipSpaceShiftAt(s, d, t, e, o, se, so);
      match Signature(t[k..e])
      case None =>
        UnnamedShift(s, t, i, k, e, se, n);
      case Some(roles) =>
        CallArgsShift(s, d, t, k, o, roles, i, so, n);
        NamedShift(s, t, i, k, e, se, o, so, roles, n);
    } else {
      NoNameShift(s, t, i, k, n);
    }
  }

  lemma SkipSpaceShiftAt(s: string, d: nat, t: string, e: nat, o: nat, se: nat, so: nat)
    requires d <= |s| && s[d..] == t && e <= |t|
    requires o == SkipSpace(t, e) && se == d + e && so == d + o
    ensures SkipSpace(s, se) == so
  {
    SkipSpaceShift(s, d, t, e);
  }

  /** A position that starts no name in either text opens no call in either. */
  lemma NoNameShift(s: string, t: string, i: nat, k: nat, n: nat)
    requires i < |s| && k < |t| && s[i] == t[k] && NameStart(s, i) == NameStart(t, k)
    requires !(t[k] == '_' && NameStart(t, k))
    ensures CallAt(s, i) == ShiftedAt(CallAt(t, k), n)
  {
  }

  /** Past a boundary, a position starts a name exactly when the same position
      of the text after the boundary does. */
  lemma StartShift(s: string, d: nat, t: string, k: nat, i: nat)
    requires d <= |s| && s[d..] == t && k < |t| && Boundary(s, d) && i == d + k
    ensures i < |s| && s[i] == t[k] && NameStart(s, i) == NameStart(t, k)
  {
    assert s[i] == t[k];
    if k > 0 {
      assert s[i - 1] == t[k - 1];
    }
  }

  /** Past a boundary, a name spans the same characters as in the text after
      the boundary. */
  lemma NameShiftAt(s: string, d: nat, t: string, k: nat, i: nat, e: nat, se: nat)
    requires d <= |s| && s[d..] == t && k < |t| && i == d + k
    requires t[k] == '_' && e == IdentEnd(t, k) && se == d + e
    ensures k < e <= |t| && i < se <= |s|
    ensures IdentEnd(s, i) == se && s[i..se] == t[k..e]
  {
    IdentEndShift(s, d, t, k);
    forall m | 0 <= m < e - k
      ensures s[i..se][m] == t[k..e][m]
    {
      assert s[i + m] == s[d..][k + m];
    }
  }

  /** A recognised name at `i` ending at `e`: the call is whatever argument
      list opens at the first non-blank after the name. */
  lemma NamedCall(s: string, i: nat, e: nat, o: nat, roles: seq<Role>)
    requires i < e <= |s| && s[i] == '_' && NameStart(s, i)
    requires IdentEnd(s, i) == e && Signature(s[i..e]) == Some(roles) && SkipSpace(s, e) == o
    ensures CallAt(s, i) == CallArgs(s, i, o, roles)
  {
  }

  /** An unrecognised name at `i` ending at `e` opens no call. */
  lemma UnnamedCall(s: string, i: nat, e: nat)
    requires i < e <= |s| && IdentEnd(s, i) == e && Signature(s[i..e]) == None
    ensures CallAt(s, i) == None
  {
  }

  /** A recognised name read in two texts opens calls that differ only by the
      line shift, when its argument lists do. */
  lemma NamedShift(s: string, t: string, i: nat, k: nat, e: nat, se: nat, o: nat, so: nat,
                   roles: seq<Role>, n: nat)
    requires k < e <= |t| && i < se <= |s|
    requires s[i] == '_' && NameStart(s, i) && t[k] == '_' && NameStart(t, k)
    requires IdentEnd(s, i) == se && IdentEnd(t, k) == e
    requires Signature(s[i..se]) == Some(roles) && Signature(t[k..e]) == Some(roles)
    requires SkipSpace(t, e) == o && SkipSpace(s, se) == so
    requires CallArgs(s, i, so, roles) == ShiftedAt(CallArgs(t, k, o, roles), n)
    ensures CallAt(s, i) == ShiftedAt(CallAt(t, k), n)
  {
    NamedCall(t, k, e, o, roles);
    NamedCall(s, i, se, so, roles);
  }

  /** An unrecognised name read in two texts opens no call in either. */
  lemma UnnamedShift(s: string, t: string, i: nat, k: nat, e: nat, se: nat, n: nat)
    requires k < e <= |t| && i < se <= |s|
    requires IdentEnd(s, i) == se && IdentEnd(t, k) == e
    requires Signature(s[i..se]) == None && Signature(t[k..e]) == None
    ensures CallAt(s, i) == ShiftedAt(CallAt(t, k), n)
  {
    UnnamedCall(t, k, e);
    UnnamedCall(s, i, se);
  }

  /** The calls `cs` behind the call `r` if there is one. */
  function Prepend(r: Option<Call>, cs: seq<Call>): seq<Call> {
    match r
    case None => cs
    case Some(c) => [c] + cs
  }

  lemma CallsStep(s: string, i: nat)
    requires i < |s|
    ensures CallsFrom(s, i) == Prepend(CallAt(s, i), CallsFrom(s, i + 1))
  {
  }

  lemma PrependShift(r: Option<Call>, cs: seq<Call>, n: nat)
    ensures Shifted(Prepend(r, cs), n) == Prepend(ShiftedAt(r, n), Shifted(cs, n))
  {
    if r.Some? {
      assert ([r.value] + cs)[1..] == cs;
    }
  }

  /** The calls found from a point past a boundary are those of the text
      after it, lines shifted by the newlines before it. */
  lemma {:induction false} CallsShift(s: string, d: nat, t: string, k: nat, i: nat)
    requires d <= |s| && s[d..] == t && k <= |t| && Boundary(s, d) && i == d + k
    ensures CallsFrom(s, i) == Shifted(CallsFrom(t, k), Newlines(s[..d]))
    decreases |t| - k
  {
    if k < |t| {
      var n, k1, i1 := Newlines(s[..d]), k + 1, i + 1;
      CallsShift(s, d, t, k1, i1);
      ShiftStep(s, d, t, k, i, n, k1, i1);
    } else {
      ShiftEnd(s, d, t, i);
    }
  }

  /** Past the end of both texts there are no calls. */
  lemma ShiftEnd(s: string, d: nat, t: string, i: nat)
    requires d <= |s| && s[d..] == t && i == d + |t|
    ensures CallsFrom(s, i) == Shifted(CallsFrom(t, |t|), Newlines(s[..d])) == []
  {
  }

  /** The calls after a boundary at `d` are those of the text after it. */
  lemma CallsAfter(s: string, d: nat)
    requires d <= |s| && Boundary(s, d)
    ensures CallsFrom(s, d) == Shifted(CallsFrom(s[d..], 0), Newlines(s[..d]))
  {
    CallsShift(s, d, s[d..], 0, d);
  }

  /** One step of `CallsShift`: position `i = d + k` of `s` sees what position
      `k` of `t` sees. */
  lemma ShiftStep(s: string, d: nat, t: string, k: nat, i: nat, n: nat, k1: nat, i1: nat)
    requires d <= |s| && s[d..] == t && k < |t| && Boundary(s, d) && n == Newlines(s[..d])
    requires i == d + k && k1 == k + 1 && i1 == i + 1
    requires CallsFrom(s, i1) == Shifted(CallsFrom(t, k1), n)
    ensures CallsFrom(s, i) == Shifted(CallsFrom(t, k), n)
  {
    CallAtShift(s, d, t, k, i, n);
    CallsStep(s, i);
    CallsStep(t, k);
    StepJoin(CallsFrom(s, i), CallsFrom(t, k), CallAt(s, i), CallAt(t, k),
             CallsFrom(s, i + 1), CallsFrom(t, k + 1), n);
  }

  /** A call (or none) before the rest, both shifted, is the shifted whole. */
  lemma StepJoin(a: seq<Call>, b: seq<Call>, r: Option<Call>, rt: Option<Call>,
                 cs: seq<Call>, ct: seq<Call>, n: nat)
    requires a == Prepend(r, cs) && b == Prepend(rt, ct)
    requires r == ShiftedAt(rt, n) && cs == Shifted(ct, n)
    ensures a == Shifted(b, n)
  {
    PrependShift(rt, ct, n);
  }

  /** A first call at `i`, then the calls of the text after its `)`, lines
      shifted by the newlines up to there. */
  lemma CallThen(s: string, i: nat, e: nat, c: nat, name: string, inner: string, roles: seq<Role>)
    requires WrittenAt(s, i, e, c, name, inner)
    requires i == 0 || !IdentChar(s[i - 1])
    requires NoChar(s[..i], '_')
    requires Signature(name) == Some(roles)
    requires Clear(0, inner, ')') && NoChar(inner, '_')
    ensures CallsFrom(s, 0) == [Call(roles, inner, LineAt(s, i))] + Shifted(CallsFrom(s[c + 1..], 0), Newlines(s[..c + 1]))
  {
    FirstCall(s, i, e, c, name, inner, roles);
    CallsAfter(s, c + 1);
  }

  /** When the text after position `c` has a single call, shifting the calls
      after `c` moves that call's line down by the newlines up to `c`. */
  lemma ShiftAfter(s: string, c: nat, later: Call)
    requires c < |s| && CallsFrom(s[c + 1..], 0) == [later]
    ensures Shifted(CallsFrom(s[c + 1..], 0), Newlines(s[..c + 1])) == [later.(line := later.line + Newlines(s[..c + 1]))]
  {
    assert [later][1..] == [];
  }

  /** The only call of the text `y` after position `c`, seen from `s`. */
  lemma SecondShifted(s: string, c: nat, y: string, k: nat, roles: seq<Role>, inner: string)
    requires c < |s| && y == s[c + 1..] && k <= |y|
    requires CallsFrom(y, 0) == [Call(roles, inner, LineAt(y, k))]
    ensures Shifted(CallsFrom(s[c + 1..], 0), Newlines(s[..c + 1])) == [Call(roles, inner, LineAt(s, c + 1 + k))]
  {
    var first := Call(roles, inner, LineAt(y, k));
    var n := Newlines(s[..c + 1]);
    LineAtShift(s, c + 1, y, k);
    ShiftAfter(s, c, first);
    calc {
      Shifted(CallsFrom(s[c + 1..], 0), n);
      [first.(line := first.line + n)];
      { assert first.(line := first.line + n) == Call(roles, inner, LineAt(s, c + 1 + k)); }
      [Call(roles, inner, LineAt(s, c + 1 + k))];
    }
  }

  /** A first call, then a single shifted call after position `c`, are two calls. */
  lemma FirstThenOne(s: string, c: nat, first: Call, second: Call)
    requires c < |s|
    requires CallsFrom(s, 0) == [first] + Shifted(CallsFrom(s[c + 1..], 0), Newlines(s[..c + 1]))
    requires Shifted(CallsFrom(s[c + 1..], 0), Newlines(s[..c + 1])) == [second]
    ensures CallsFrom(s, 0) == [first, second]
  {
    assert [first] + [second] == [first, second];
  }

  /** The calls of a text holding one call at `i..c`, followed by a text `y`
      whose only call is at `k..c2`. */
  lemma CallThenCall(s: string, i: nat, e: nat, c: nat, name1: string, inner1: string, roles1: seq<Role>,
                     y: string, k: nat, e2: nat, c2: nat, name2: string, inner2: string, roles2: seq<Role>)
    requires WrittenAt(s, i, e, c, name1, inner1)
    requires i == 0 || !IdentChar(s[i - 1])
    requires NoChar(s[..i], '_')
    requires Signature(name1) == Some(roles1)
    requires Clear(0, inner1, ')') && NoChar(inner1, '_')
    requires y == s[c + 1..]
    requires WrittenAt(y, k, e2, c2, name2, inner2)
    requires k == 0 || !IdentChar(y[k - 1])
    requires NoChar(y[..k], '_') && NoChar(y[c2 + 1..], '_')
    requires Signature(name2) == Some(roles2)
    requires Clear(0, inner2, ')') && NoChar(inner2, '_')
    ensures CallsFrom(s, 0) == [Call(roles1, inner1, LineAt(s, i)), Call(roles2, inner2, LineAt(s, c + 1 + k))]
  {
    CallThen(s, i, e, c, name1, inner1, roles1);
    CallIn(y, k, e2, c2, name2, inner2, roles2);
    SecondShifted(s, c, y, k, roles2, inner2);
    FirstThenOne(s, c, Call(roles1, inner1, LineAt(s, i)), Call(roles2, inner2, LineAt(s, c + 1 + k)));
  }

  /** `CallThenCall` with the text around the calls named: `pre` before the
      first, `mid` between them and `post` after the second. */
  lemma CallsAround(s: string, i: nat, e: nat, c: nat, name1: string, inner1: string, roles1: seq<Role>,
                    y: string, k: nat, e2: nat, c2: nat, name2: string, inner2: string, roles2: seq<Role>,
                    pre: string, mid: string, post: string, x: string)
    requires WrittenAt(s, i, e, c, name1, inner1) && s[..i] == pre && s[c + 1..] == y && |x| == c + 1 && k == |mid|
    requires WrittenAt(y, k, e2, c2, name2, inner2) && y[..k] == mid && y[c2 + 1..] == post
    requires Signature(name1) == Some(roles1) && Signature(name2) == Some(roles2)
    requires pre == [] || !IdentChar(pre[|pre| - 1])
    requires mid == [] || !IdentChar(mid[|mid| - 1])
    requires NoChar(pre, '_') && NoChar(mid, '_') && NoChar(post, '_')
    requires Clear(0, inner1, ')') && NoChar(inner1, '_')
    requires Clear(0, inner2, ')') && NoChar(inner2, '_')
    ensures CallsFrom(s, 0) == [Call(roles1, inner1, LineAt(s, |pre|)), Call(roles2, inner2, LineAt(s, |x| + |mid|))]
  {
    assert i == 0 || s[i - 1] == pre[|pre| - 1];
    assert k == 0 || y[k - 1] == mid[|mid| - 1];
    CallThenCall(s, i, e, c, name1, inner1, roles1, y, k, e2, c2, name2, inner2, roles2);
  }

  /** The calls of `pre name1(inner1) mid name2(inner2) post` when nothing
      around the two calls has an underscore. */
  lemma BothCalls(s: string, x: string, y: string, pre: string, name1: string, inner1: string, mid: string,
                  name2: string, inner2: string, post: string, roles1: seq<Role>, roles2: seq<Role>)
    requires x == pre + name1 + "(" + inner1 + ")"
    requires y == mid + name2 + "(" + inner2 + ")" + post
    requires s == x + y
    requires Signature(name1) == Some(roles1) && Signature(name2) == Some(roles2)
    requires pre == [] || !IdentChar(pre[|pre| - 1])
    requires mid == [] || !IdentChar(mid[|mid| - 1])
    requires NoChar(pre, '_') && NoChar(mid, '_') && NoChar(post, '_')
    requires Clear(0, inner1, ')') && NoChar(inner1, '_')
    requires Clear(0, inner2, ')') && NoChar(inner2, '_')
    ensures CallsFrom(s, 0) == [Call(roles1, inner1, LineAt(s, |pre|)), Call(roles2, inner2, LineAt(s, |x| + |mid|))]
  {
    var i := |pre|;
    var e := i + |name1|;
    var c := e + 1 + |inner1|;
    var k := |mid|;
    CallLayout(s, pre, name1, inner1, y, i, e, c);
    CallLayout(y, mid, name2, inner2, post, k, k + |name2|, k + |name2| + 1 + |inner2|);
    CallsAround(s, i, e, c, name1, inner1, roles1, y, k, k + |name2|, k + |name2| + 1 + |inner2|, name2, inner2, roles2,
                pre, mid, post, x);
  }
}
