/** The catalog builder: extraction records are folded, one at a time, into an
    ordered catalog of entries keyed by (context, msgid).  Records whose domain
    token does not match the configured filter are dropped; a record whose key
    is already present only adds its occurrence and, when the entry has none
    yet, its plural text. */
module CatalogBuilder {
  import opened Wrappers
  import opened Extractor

  /** The identity of an entry. */
  datatype Key = Key(context: Option<string>, msgid: string)

  /** One place where an entry's text was found. */
  datatype Occurrence = Occurrence(path: string, line: nat)

  datatype Entry = Entry(key: Key, plural: Option<string>, refs: seq<Occurrence>)

  /** Entries in first-encounter order. */
  type Catalog = seq<Entry>

  function KeyOf(r: Record): Key {
    Key(r.context, r.msgid)
  }

  function OccurrenceOf(r: Record): Occurrence {
    Occurrence(r.path, r.line)
  }

  /** The domain filter: no filter admits everything; otherwise the raw domain
      token must equal the filter text exactly, and a call without a domain
      argument never matches. */
  predicate Admits(filter: Option<string>, r: Record) {
    filter.None? || r.domain == filter
  }

  function Keys(cat: Catalog): (ks: seq<Key>)
    ensures |ks| == |cat|
    ensures forall i :: 0 <= i < |cat| ==> ks[i] == cat[i].key
  {
    if cat == [] then [] else [cat[0].key] + Keys(cat[1..])
  }

  /** No key appears in two entries. */
  predicate UniqueKeys(cat: Catalog) {
    forall a, b :: 0 <= a < b < |cat| ==> cat[a].key != cat[b].key
  }

  /** The position of the entry with key `k`, if there is one. */
  function Find(cat: Catalog, k: Key): (r: Option<nat>)
    ensures r.Some? ==> r.value < |cat| && cat[r.value].key == k
    ensures r.None? <==> forall i :: 0 <= i < |cat| ==> cat[i].key != k
  {
    if cat == [] then None
    else if cat[0].key == k then Some(0)
    else match Find(cat[1..], k)
      case None => None
      case Some(i) => Some(i + 1)
  }

  /** An existing entry after a record with its key has been merged in. */
  function Merge(e: Entry, r: Record): (m: Entry)
    ensures m.key == e.key
    ensures e.plural.Some? ==> m.plural == e.plural
    ensures e.plural.None? ==> m.plural == r.plural
    ensures OccurrenceOf(r) in m.refs
    ensures forall o :: o in m.refs <==> o in e.refs || o == OccurrenceOf(r)
    ensures |e.refs| <= |m.refs| && m.refs[..|e.refs|] == e.refs
    ensures |m.refs| == |e.refs| + (if OccurrenceOf(r) in e.refs then 0 else 1)
  {
    var o := OccurrenceOf(r);
    Entry(e.key, if e.plural.Some? then e.plural else r.plural,
          if o in e.refs then e.refs else e.refs + [o])
  }

  /** Folds one record into the catalog. */
  function Ingest(cat: Catalog, r: Record, filter: Option<string>): (c: Catalog)
    ensures !Admits(filter, r) ==> c == cat
    ensures Admits(filter, r) && Find(cat, KeyOf(r)).None? ==>
              c == cat + [Entry(KeyOf(r), r.plural, [OccurrenceOf(r)])]
    ensures Admits(filter, r) && Find(cat, KeyOf(r)).Some? ==>
              var j := Find(cat, KeyOf(r)).value;
              |c| == |cat| && c[j] == Merge(cat[j], r)
              && forall i :: 0 <= i < |cat| && i != j ==> c[i] == cat[i]
  {
    if !Admits(filter, r) then cat
    else match Find(cat, KeyOf(r))
      case None => cat + [Entry(KeyOf(r), r.plural, [OccurrenceOf(r)])]
      case Some(i) => cat[i := Merge(cat[i], r)]
  }

  /** Folds the records into the catalog in order. */
  function IngestAll(cat: Catalog, rs: seq<Record>, filter: Option<string>): Catalog
    decreases |rs|
  {
    if rs == [] then cat else IngestAll(Ingest(cat, rs[0], filter), rs[1..], filter)
  }

  /** The catalog a run builds from its records. */
  function Build(rs: seq<Record>, filter: Option<string>): Catalog {
    IngestAll([], rs, filter)
  }

  // ---------------------------------------------------------------------------
  // What ingestion preserves

  /** Ingestion never creates a second entry for a key. */
  lemma IngestUnique(cat: Catalog, r: Record, filter: Option<string>)
    requires UniqueKeys(cat)
    ensures UniqueKeys(Ingest(cat, r, filter))
  {
  }

  /** The keys of the catalog only grow, keep their order, and gain the
      record's key exactly when it is admitted and new. */
  lemma IngestKeys(cat: Catalog, r: Record, filter: Option<string>)
    ensures var ks := Keys(Ingest(cat, r, filter));
            if Admits(filter, r) && KeyOf(r) !in Keys(cat) then ks == Keys(cat) + [KeyOf(r)]
            else ks == Keys(cat)
  {
    if Admits(filter, r) {
      match Find(cat, KeyOf(r))
      case None =>
        KeysAppend(cat, Entry(KeyOf(r), r.plural, [OccurrenceOf(r)]));
      case Some(j) =>
        KeysUpdate(cat, j, Merge(cat[j], r));
    }
  }

  lemma KeysAppend(cat: Catalog, e: Entry)
    ensures Keys(cat + [e]) == Keys(cat) + [e.key]
  {
  }

  lemma KeysUpdate(cat: Catalog, j: nat, e: Entry)
    requires j < |cat| && e.key == cat[j].key
    ensures Keys(cat[j := e]) == Keys(cat)
  {
  }

  /** Ingestion never replaces a plural text that an entry already has, and
      never loses an occurrence. */
  lemma IngestKeepsEntries(cat: Catalog, r: Record, filter: Option<string>, i: nat)
    requires i < |cat|
    ensures var c := Ingest(cat, r, filter);
            i < |c| && c[i].key == cat[i].key
            && (cat[i].plural.Some? ==> c[i].plural == cat[i].plural)
            && |cat[i].refs| <= |c[i].refs| && c[i].refs[..|cat[i].refs|] == cat[i].refs
  {
  }

  /** After ingestion an admitted record's key has an entry listing the
      record's occurrence. */
  lemma IngestRecords(cat: Catalog, r: Record, filter: Option<string>)
    requires Admits(filter, r)
    ensures var c := Ingest(cat, r, filter);
            exists i :: 0 <= i < |c| && c[i].key == KeyOf(r) && OccurrenceOf(r) in c[i].refs
  {
    var c := Ingest(cat, r, filter);
    match Find(cat, KeyOf(r))
    case None =>
      assert c[|cat|].key == KeyOf(r) && OccurrenceOf(r) in c[|cat|].refs;
    case Some(i) =>
      assert c[i].key == KeyOf(r) && OccurrenceOf(r) in c[i].refs;
  }

  // ---------------------------------------------------------------------------
  // The catalog of a whole run, against a reference description

  /** The elements of a list in first-encounter order, each once. */
  function Firsts<T(==, !new)>(xs: seq<T>): (r: seq<T>)
    ensures forall a, b :: 0 <= a < b < |r| ==> r[a] != r[b]
    ensures forall x :: x in r <==> x in xs
  {
    if xs == [] then []
    else
      var init := Firsts(xs[..|xs| - 1]);
      var last := xs[|xs| - 1];
      assert xs == xs[..|xs| - 1] + [last];
      if last in init then init else init + [last]
  }

  lemma FirstsSnoc<T(!new)>(xs: seq<T>, x: T)
    ensures Firsts(xs + [x]) == if x in Firsts(xs) then Firsts(xs) else Firsts(xs) + [x]
  {
    assert (xs + [x])[..|xs + [x]| - 1] == xs;
  }

  /** The keys of the admitted records, in order, repetitions included. */
  function AdmittedKeys(rs: seq<Record>, filter: Option<string>): (ks: seq<Key>)
    ensures forall k :: k in ks <==> exists r :: r in rs && Admits(filter, r) && KeyOf(r) == k
  {
    if rs == [] then []
    else
      var init := AdmittedKeys(rs[..|rs| - 1], filter);
      var last := rs[|rs| - 1];
      assert rs == rs[..|rs| - 1] + [last];
      if Admits(filter, last) then init + [KeyOf(last)] else init
  }

  /** Where the admitted records with key `k` were found, in order, repetitions
      included. */
  function Sites(rs: seq<Record>, filter: Option<string>, k: Key): (os: seq<Occurrence>)
    ensures forall o :: o in os <==>
              exists r :: r in rs && Admits(filter, r) && KeyOf(r) == k && OccurrenceOf(r) == o
    ensures os != [] ==> k in AdmittedKeys(rs, filter)
  {
    if rs == [] then []
    else
      var init := Sites(rs[..|rs| - 1], filter, k);
      var last := rs[|rs| - 1];
      assert rs == rs[..|rs| - 1] + [last];
      if Admits(filter, last) && KeyOf(last) == k then init + [OccurrenceOf(last)] else init
  }

  /** The plural text of the first admitted record with key `k` that carries one. */
  function FirstPlural(rs: seq<Record>, filter: Option<string>, k: Key): (p: Option<string>)
    ensures p.Some? ==> k in AdmittedKeys(rs, filter)
  {
    if rs == [] then None
    else
      var init := FirstPlural(rs[..|rs| - 1], filter, k);
      var last := rs[|rs| - 1];
      assert rs == rs[..|rs| - 1] + [last];
      if init.Some? then init
      else if Admits(filter, last) && KeyOf(last) == k then last.plural
      else None
  }

  /** The three reference definitions, one record further. */
  lemma ReferenceSnoc(rs: seq<Record>, r: Record, filter: Option<string>, k: Key)
    ensures AdmittedKeys(rs + [r], filter)
            == if Admits(filter, r) then AdmittedKeys(rs, filter) + [KeyOf(r)] else AdmittedKeys(rs, filter)
    ensures Sites(rs + [r], filter, k)
            == if Admits(filter, r) && KeyOf(r) == k then Sites(rs, filter, k) + [OccurrenceOf(r)]
               else Sites(rs, filter, k)
    ensures FirstPlural(rs + [r], filter, k)
            == if FirstPlural(rs, filter, k).Some? then FirstPlural(rs, filter, k)
               else if Admits(filter, r) && KeyOf(r) == k then r.plural else None
  {
    assert (rs + [r])[..|rs + [r]| - 1] == rs;
  }

  /** Folding one more record is one more ingestion. */
  lemma {:induction false} IngestAllSnoc(cat: Catalog, rs: seq<Record>, r: Record, filter: Option<string>)
    ensures IngestAll(cat, rs + [r], filter) == Ingest(IngestAll(cat, rs, filter), r, filter)
    decreases |rs|
  {
    if rs == [] {
      assert rs + [r] == [r];
    } else {
      assert (rs + [r])[1..] == rs[1..] + [r];
      IngestAllSnoc(Ingest(cat, rs[0], filter), rs[1..], r, filter);
    }
  }

  lemma BuildSnoc(rs: seq<Record>, r: Record, filter: Option<string>)
    ensures Build(rs + [r], filter) == Ingest(Build(rs, filter), r, filter)
  {
    IngestAllSnoc([], rs, r, filter);
  }

  /** The catalog's keys are exactly the admitted records' keys, each once, in
      the order in which they were first met. */
  lemma {:induction false} BuildKeys(rs: seq<Record>, filter: Option<string>)
    ensures Keys(Build(rs, filter)) == Firsts(AdmittedKeys(rs, filter))
    decreases |rs|
  {
    if rs != [] {
      var init := rs[..|rs| - 1];
      var last := rs[|rs| - 1];
      assert rs == init + [last];
      BuildKeys(init, filter);
      BuildSnoc(init, last, filter);
      IngestKeys(Build(init, filter), last, filter);
      ReferenceSnoc(init, last, filter, KeyOf(last));
      if Admits(filter, last) {
        FirstsSnoc(AdmittedKeys(init, filter), KeyOf(last));
      }
    }
  }

  /** A run's catalog never holds two entries with the same key. */
  lemma {:induction false} IngestAllUnique(cat: Catalog, rs: seq<Record>, filter: Option<string>)
    requires UniqueKeys(cat)
    ensures UniqueKeys(IngestAll(cat, rs, filter))
    decreases |rs|
  {
    if rs != [] {
      IngestUnique(cat, rs[0], filter);
      IngestAllUnique(Ingest(cat, rs[0], filter), rs[1..], filter);
    }
  }

  lemma BuildUnique(rs: seq<Record>, filter: Option<string>)
    ensures UniqueKeys(Build(rs, filter))
  {
    IngestAllUnique([], rs, filter);
  }

  /** An entry already in a catalog with distinct keys is merged with the
      record exactly when the record is admitted and has its key. */
  lemma IngestEntry(b: Catalog, r: Record, filter: Option<string>, i: nat)
    requires UniqueKeys(b) && i < |b|
    ensures var c := Ingest(b, r, filter);
            i < |c| && c[i] == if Admits(filter, r) && KeyOf(r) == b[i].key then Merge(b[i], r) else b[i]
  {
    if Admits(filter, r) && KeyOf(r) == b[i].key {
      assert Find(b, KeyOf(r)) == Some(i);
    }
  }

  /** An entry past the old end was created by an admitted record whose key
      was missing. */
  lemma IngestNewEntry(b: Catalog, r: Record, filter: Option<string>)
    requires |Ingest(b, r, filter)| > |b|
    ensures Admits(filter, r) && KeyOf(r) !in Keys(b)
    ensures Ingest(b, r, filter)[|b|] == Entry(KeyOf(r), r.plural, [OccurrenceOf(r)])
  {
  }

  /** Every entry of a run's catalog lists the places of the admitted records
      with its key, in order and without repetition, and carries the plural
      text of the first of them that supplies one. */
  lemma {:induction false} BuildEntries(rs: seq<Record>, filter: Option<string>, i: nat)
    requires i < |Build(rs, filter)|
    ensures var e := Build(rs, filter)[i];
            e.refs == Firsts(Sites(rs, filter, e.key))
            && e.plural == FirstPlural(rs, filter, e.key)
    decreases |rs|
  {
    var init := rs[..|rs| - 1];
    var last := rs[|rs| - 1];
    assert rs == init + [last];
    var b := Build(init, filter);
    BuildSnoc(init, last, filter);
    var c := Ingest(b, last, filter);
    if i < |b| {
      BuildEntries(init, filter, i);
      OldEntryStep(rs, init, last, filter, i, b, c);
    } else {
      NewEntryStep(rs, init, last, filter, i, b, c);
    }
  }

  /** An entry that was already there keeps matching the reference one record
      further. */
  lemma OldEntryStep(rs: seq<Record>, init: seq<Record>, last: Record, filter: Option<string>,
                     i: nat, b: Catalog, c: Catalog)
    requires rs == init + [last] && b == Build(init, filter) && c == Ingest(b, last, filter)
    requires i < |b|
    requires b[i].refs == Firsts(Sites(init, filter, b[i].key))
             && b[i].plural == FirstPlural(init, filter, b[i].key)
    ensures i < |c| && c[i].refs == Firsts(Sites(rs, filter, c[i].key))
            && c[i].plural == FirstPlural(rs, filter, c[i].key)
  {
    BuildUnique(init, filter);
    IngestEntry(b, last, filter, i);
    ReferenceSnoc(init, last, filter, b[i].key);
    FirstsSnoc(Sites(init, filter, b[i].key), OccurrenceOf(last));
  }

  /** An entry the last record created matches the reference. */
  lemma NewEntryStep(rs: seq<Record>, init: seq<Record>, last: Record, filter: Option<string>,
                     i: nat, b: Catalog, c: Catalog)
    requires rs == init + [last] && b == Build(init, filter) && c == Ingest(b, last, filter)
    requires |b| <= i < |c|
    ensures c[i].refs == Firsts(Sites(rs, filter, c[i].key))
            && c[i].plural == FirstPlural(rs, filter, c[i].key)
  {
    IngestNewEntry(b, last, filter);
    var k := KeyOf(last);
    BuildKeys(init, filter);
    assert i == |b| && c[i].key == k;
    assert k !in AdmittedKeys(init, filter);
    assert Sites(init, filter, k) == [] && FirstPlural(init, filter, k).None?;
    ReferenceSnoc(init, last, filter, k);
    FirstsSnoc(Sites(init, filter, k), OccurrenceOf(last));
  }
}
