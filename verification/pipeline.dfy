/** A whole run of the extractor: the entry point checks its configuration
    argument, every source file is scanned in the order given, the records of
    all files are folded into one catalog, and the catalog is rendered once as
    a POT template. Reading the files, the stream that delivers them and the
    clock that supplies the creation date stay outside: files arrive as
    (path, contents) pairs and the date as an opaque string. */
module Pipeline {
  import opened Wrappers
  import opened Text
  import opened Extractor
  import opened CatalogBuilder
  import opened Pot

  /** One source file as the surrounding stream hands it over. */
  datatype SourceFile = SourceFile(path: string, contents: string)

  /** What the entry point is called with: nothing, a configuration object, or
      some value that is not an object. */
  datatype Argument = Missing | Settings(opts: Options) | NotObject

  /** The end of a run: the template, or the error raised before any file was
      looked at. */
  datatype Outcome = Done(pot: string) | Refused(message: string)

  const NotObjectMessage := "Require a argument of type object."

  /** The configuration used when the entry point is called without one: no
      domain filter, empty contact fields, the full header. */
  const DefaultOptions := Options(None, "", "", "", Full([]))

  /** The default configuration with a domain filter. */
  function WithDomain(domain: string): (opts: Options)
    ensures opts.domain == Some(domain) && opts.headers == Full([])
  {
    DefaultOptions.(domain := Some(domain))
  }

  /** The configuration an argument stands for; none for a non-object. */
  function Configure(arg: Argument): (r: Option<Options>)
    ensures r.None? <==> arg.NotObject?
    ensures arg.Settings? ==> r == Some(arg.opts)
    ensures arg.Missing? ==> r == Some(DefaultOptions)
  {
    match arg
    case Missing => Some(DefaultOptions)
    case Settings(opts) => Some(opts)
    case NotObject => None
  }

  /** The records of every file, file after file, each file's in source order. */
  function ExtractAll(files: seq<SourceFile>): (rs: seq<Record>)
  {
    if files == [] then [] else Extract(files[0].path, files[0].contents) + ExtractAll(files[1..])
  }

  /** The catalog of a run. */
  function CatalogOf(opts: Options, files: seq<SourceFile>): Catalog {
    Build(ExtractAll(files), opts.domain)
  }

  /** The template of a run with a valid configuration. */
  function Generate(opts: Options, date: string, files: seq<SourceFile>): string {
    Render(opts, date, CatalogOf(opts, files))
  }

  /** The entry point followed by the whole run. */
  function Run(arg: Argument, date: string, files: seq<SourceFile>): (r: Outcome)
    ensures r.Refused? <==> arg.NotObject?
    ensures r.Refused? ==> r.message == NotObjectMessage
  {
    match Configure(arg)
    case None => Refused(NotObjectMessage)
    case Some(opts) => Done(Generate(opts, date, files))
  }

  // ---------------------------------------------------------------------------
  // The entry point

  /** A non-object argument is refused with the same message whatever the
      files and the date: nothing is read before the check. */
  lemma RefusedBeforeInput(date1: string, files1: seq<SourceFile>, date2: string, files2: seq<SourceFile>)
    ensures Run(NotObject, date1, files1) == Run(NotObject, date2, files2) == Refused(NotObjectMessage)
  {
  }

  /** Calling the entry point without an argument is calling it with the
      default configuration, and a configuration object is used as given. */
  lemma MissingIsDefault(date: string, files: seq<SourceFile>)
    ensures Run(Missing, date, files) == Run(Settings(DefaultOptions), date, files)
    ensures forall opts :: Run(Settings(opts), date, files) == Done(Generate(opts, date, files))
  {
  }

  // ---------------------------------------------------------------------------
  // Extraction over several files

  /** Extraction works file by file: the records of two batches of files are
      those of the first batch followed by those of the second. */
  lemma {:induction false} ExtractAllAppend(a: seq<SourceFile>, b: seq<SourceFile>)
    ensures ExtractAll(a + b) == ExtractAll(a) + ExtractAll(b)
    decreases |a|
  {
    if a == [] {
      assert a + b == b;
    } else {
      var here := Extract(a[0].path, a[0].contents);
      assert (a + b)[0] == a[0];
      assert (a + b)[1..] == a[1..] + b;
      assert ExtractAll(a + b) == here + ExtractAll(a[1..] + b);
      ExtractAllAppend(a[1..], b);
      AppendAssoc(here, ExtractAll(a[1..]), ExtractAll(b));
    }
  }

  /** Every record names the file it came from. */
  lemma {:induction false} ExtractAllPaths(files: seq<SourceFile>)
    ensures forall r :: r in ExtractAll(files) ==> exists f :: f in files && r.path == f.path
    decreases |files|
  {
    if files != [] {
      var f := files[0];
      var here := Extract(f.path, f.contents);
      RecordsPath(f.path, CallsFrom(f.contents, 0));
      ExtractAllPaths(files[1..]);
      forall r | r in ExtractAll(files)
        ensures exists g :: g in files && r.path == g.path
      {
        if r in here {
          var k :| 0 <= k < |here| && here[k] == r;
          assert f in files;
        } else {
          assert r in ExtractAll(files[1..]);
          var g :| g in files[1..] && r.path == g.path;
          assert g in files;
        }
      }
    }
  }

  /** A single file's records are that file's. */
  lemma OneFile(f: SourceFile)
    ensures ExtractAll([f]) == Extract(f.path, f.contents)
  {
    assert [f][1..] == [];
  }

  // ---------------------------------------------------------------------------
  // What the template of a run shows

  /** The entries of a run are the keys of its admitted records, each once, in
      the order they were first met. */
  lemma CatalogOfKeys(opts: Options, files: seq<SourceFile>)
    ensures Keys(CatalogOf(opts, files)) == Firsts(AdmittedKeys(ExtractAll(files), opts.domain))
    ensures UniqueKeys(CatalogOf(opts, files))
  {
    BuildKeys(ExtractAll(files), opts.domain);
    BuildUnique(ExtractAll(files), opts.domain);
  }

  /** The entry of the run's catalog that holds key `k`, for a key some admitted
      record carries. */
  lemma EntryOf(opts: Options, files: seq<SourceFile>, k: Key) returns (i: nat)
    requires k in AdmittedKeys(ExtractAll(files), opts.domain)
    ensures i < |CatalogOf(opts, files)| && CatalogOf(opts, files)[i].key == k
  {
    var cat := CatalogOf(opts, files);
    CatalogOfKeys(opts, files);
    assert k in Keys(cat);
    i :| 0 <= i < |Keys(cat)| && Keys(cat)[i] == k;
  }

  /** Every admitted record's text appears in the template as a msgid. */
  lemma GenerateShowsMsgid(opts: Options, date: string, files: seq<SourceFile>, r: Record)
    requires r in ExtractAll(files) && Admits(opts.domain, r)
    ensures Contains(Generate(opts, date, files), Unlines(StringLines("msgid", r.msgid)))
  {
    var cat := CatalogOf(opts, files);
    var i := EntryOf(opts, files, KeyOf(r));
    RenderShowsEntry(opts, date, cat, i);
    EntryShowsMsgid(cat[i]);
    ContainsTrans(Generate(opts, date, files), Unlines(EntryLines(cat[i])),
                  Unlines(StringLines("msgid", r.msgid)));
  }

  /** Every admitted record's context appears in the template as a msgctxt. */
  lemma GenerateShowsContext(opts: Options, date: string, files: seq<SourceFile>, r: Record)
    requires r in ExtractAll(files) && Admits(opts.domain, r) && r.context.Some?
    ensures Contains(Generate(opts, date, files), Unlines(StringLines("msgctxt", r.context.value)))
  {
    var cat := CatalogOf(opts, files);
    var i := EntryOf(opts, files, KeyOf(r));
    RenderShowsEntry(opts, date, cat, i);
    EntryShowsContext(cat[i]);
    ContainsTrans(Generate(opts, date, files), Unlines(EntryLines(cat[i])),
                  Unlines(StringLines("msgctxt", r.context.value)));
  }

  /** The plural of a key, taken from the first admitted record with that key
      that has one, appears in the template as a msgid_plural. */
  lemma GenerateShowsPlural(opts: Options, date: string, files: seq<SourceFile>, k: Key, p: string)
    requires FirstPlural(ExtractAll(files), opts.domain, k) == Some(p)
    ensures Contains(Generate(opts, date, files), Unlines(StringLines("msgid_plural", p)))
  {
    var cat := CatalogOf(opts, files);
    var i := EntryOf(opts, files, k);
    BuildEntries(ExtractAll(files), opts.domain, i);
    RenderShowsEntry(opts, date, cat, i);
    EntryShowsPlural(cat[i]);
    ContainsTrans(Generate(opts, date, files), Unlines(EntryLines(cat[i])),
                  Unlines(StringLines("msgid_plural", p)));
  }

  /** A record the filter turns away has no entry unless an admitted record
      shares its key. */
  lemma GenerateDropsFiltered(opts: Options, files: seq<SourceFile>, k: Key)
    requires forall r :: r in ExtractAll(files) && KeyOf(r) == k ==> !Admits(opts.domain, r)
    ensures k !in Keys(CatalogOf(opts, files))
  {
    CatalogOfKeys(opts, files);
  }
}
