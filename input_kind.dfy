/** The input stage: deciding whether the user's input is a file, a URL or
    plain text (`TipoEntrada` in `Extraccion_datos.py`, refactored as
    `prefijo` and `tipoentrada` in `extraccion_validacion/tipo_datos.py`),
    validating text and URLs (`ValidadorDatos`), and the parts of
    `ExtraccionDatos` that are not I/O: stripping plain text and choosing a
    file reader by extension. The file-system test and the `validators`
    predicates are parameters. */
module InputKind {
  import opened Base
  import opened Text

  // ----- URL scheme prefixes -----

  /** `tuple(f"{prefijo}://" for prefijo in ['http', 'https'])`. */
  const DefaultPrefixes: seq<string> := ["http://", "https://"]

  /** Every scheme is a non-empty string. */
  predicate AllSchemes(items: seq<PyValue>)
  {
    forall i :: 0 <= i < |items| ==> items[i].PyStr? && items[i].s != ""
  }

  /** A prefix is a non-empty scheme followed by `://`. */
  predicate IsPrefix(p: string)
  {
    |p| > 3 && EndsWith(p, "://")
  }

  /** `construir_prefijos`: a falsy argument gives the defaults; schemes
      that are all non-empty strings give one prefix each, in order; any
      other scheme gives the defaults; an argument that cannot be iterated
      raises. */
  function BuildPrefixes(esquemas: PyValue): (r: Outcome<seq<string>>)
    ensures !Truthy(esquemas) ==> r == Returned(DefaultPrefixes)
    ensures r.Raised? <==> Truthy(esquemas) && Iterate(esquemas).Raised?
    ensures Truthy(esquemas) && Iterate(esquemas).Returned? ==>
              var items := Iterate(esquemas).value;
              (AllSchemes(items) ==>
                 |r.value| == |items| && forall i :: 0 <= i < |items| ==> r.value[i] == items[i].s + "://")
              && (!AllSchemes(items) ==> r.value == DefaultPrefixes)
    ensures r.Returned? ==> forall i :: 0 <= i < |r.value| ==> IsPrefix(r.value[i])
  {
    if !Truthy(esquemas) then Returned(DefaultPrefixes)
    else match Iterate(esquemas)
      case Raised => Raised
      case Returned(items) =>
        if AllSchemes(items) then
          var ps := seq(|items|, i requires 0 <= i < |items| => items[i].s + "://");
          assert forall i :: 0 <= i < |ps| ==> ps[i][|ps[i]| - 3..] == "://";
          Returned(ps)
        else
          assert forall i :: 0 <= i < |DefaultPrefixes| ==> DefaultPrefixes[i][|DefaultPrefixes[i]| - 3..] == "://";
          Returned(DefaultPrefixes)
  }

  /** A string of schemes is iterated character by character: `"ftp"` gives
      one prefix per letter. */
  lemma StringSchemesSplit(esquemas: PyValue)
    requires esquemas == PyStr("ftp")
    ensures BuildPrefixes(esquemas) == Returned(["f://", "t://", "p://"])
  {
    var items := Iterate(esquemas).value;
    assert items == [PyStr("f"), PyStr("t"), PyStr("p")];
    assert AllSchemes(items);
    assert Truthy(esquemas);
    var r := BuildPrefixes(esquemas).value;
    assert |r| == 3;
    assert r[0] == "f://" && r[1] == "t://" && r[2] == "p://";
    assert r == ["f://", "t://", "p://"];
  }

  /** `s.startswith(prefijos)` for a tuple of prefixes. */
  predicate StartsWithAny(s: string, prefijos: seq<string>)
  {
    exists i :: 0 <= i < |prefijos| && StartsWith(s, prefijos[i])
  }

  /** A URL without an allowed prefix gets `http://` in front. */
  function FixScheme(url: string, prefijos: seq<string>): (r: string)
    ensures StartsWithAny(url, prefijos) ==> r == url
    ensures !StartsWithAny(url, prefijos) ==> r == "http://" + url
    ensures StartsWithAny(r, prefijos) || StartsWith(r, "http://")
  {
    if StartsWithAny(url, prefijos) then url
    else
      var r := "http://" + url;
      assert r[..7] == "http://";
      r
  }

  /** When `http://` is allowed, fixing a fixed URL changes nothing. */
  lemma FixSchemeIdempotent(url: string, prefijos: seq<string>)
    requires "http://" in prefijos
    ensures FixScheme(FixScheme(url, prefijos), prefijos) == FixScheme(url, prefijos)
  {
    var r := FixScheme(url, prefijos);
    if !StartsWithAny(url, prefijos) {
      var i :| 0 <= i < |prefijos| && prefijos[i] == "http://";
      assert StartsWith(r, prefijos[i]) by { assert r[..7] == "http://"; }
    }
  }

  /** When only other schemes are allowed, the default `http://` is not
      among them and is added again on every pass. */
  lemma FixSchemeNotIdempotent(prefijos: seq<string>)
    requires prefijos == ["ftp://"]
    ensures FixScheme("x.org", prefijos) == "http://x.org"
    ensures FixScheme("http://x.org", prefijos) == "http://http://x.org"
  {
    assert !StartsWith("x.org", prefijos[0]);
    assert !StartsWith("http://x.org", prefijos[0]) by { assert "http://x.org"[0] != prefijos[0][0]; }
  }

  // ----- Deciding the kind of input -----

  datatype Kind = Archivo | URL | Textoplano

  /** The values `os.stat` refuses with a `TypeError`, which
      `os.path.isfile` does not catch: neither a path nor a file
      descriptor. */
  predicate StatRejects(v: PyValue)
  {
    v.PyNone? || v.PyList? || v.PyTuple?
  }

  /** `os.path.isfile(entrada)`: raises on a value `os.stat` refuses;
      otherwise `esFichero` says whether it names an existing regular file
      (a string path, or an integer or boolean taken as a descriptor). */
  function IsFile(entrada: PyValue, esFichero: PyValue -> bool): (r: Outcome<bool>)
    ensures r.Raised? <==> StatRejects(entrada)
    ensures entrada.PyStr? ==> r == Returned(esFichero(entrada))
  {
    if StatRejects(entrada) then Raised else Returned(esFichero(entrada))
  }

  /** `TipoEntrada.determinar_tipo`: an existing file first, then a valid
      URL (with its scheme fixed), then any string as plain text, else no
      kind; the input comes back unchanged except for a fixed URL. `esFichero`
      stands for `os.path.isfile` on the values it accepts and `esUrl` for
      `validators.url`, which holds of strings only. */
  function DetermineKind(entrada: PyValue, esquemas: PyValue, esFichero: PyValue -> bool, esUrl: string -> bool)
    : (r: Outcome<(Option<Kind>, PyValue)>)
    ensures StatRejects(entrada) ==> r == Raised
    ensures !StatRejects(entrada) && esFichero(entrada) ==> r == Returned((Some(Archivo), entrada))
    ensures r.Raised? <==>
              StatRejects(entrada)
              || (!esFichero(entrada) && entrada.PyStr? && esUrl(entrada.s) && BuildPrefixes(esquemas).Raised?)
    ensures r.Returned? && r.value.0 == Some(URL) ==>
              !esFichero(entrada) && entrada.PyStr? && esUrl(entrada.s) && r.value.1.PyStr?
              && (r.value.1.s == entrada.s || r.value.1.s == "http://" + entrada.s)
              && (StartsWithAny(r.value.1.s, BuildPrefixes(esquemas).value) || StartsWith(r.value.1.s, "http://"))
    ensures r.Returned? && r.value.0 == Some(URL) ==>
              BuildPrefixes(esquemas).Returned?
              && r.value.1 == PyStr(FixScheme(entrada.s, BuildPrefixes(esquemas).value))
    ensures r.Returned? && r.value.0 != Some(URL) ==> r.value.1 == entrada
    ensures r.Returned? && r.value.0 == Some(Textoplano) <==>
              !esFichero(entrada) && entrada.PyStr? && !esUrl(entrada.s)
    ensures r.Returned? && r.value.0 == None <==>
              !StatRejects(entrada) && !esFichero(entrada) && !entrada.PyStr?
  {
    match IsFile(entrada, esFichero)
    case Raised => Raised
    case Returned(fichero) =>
      if fichero then Returned((Some(Archivo), entrada))
      else if entrada.PyStr? && esUrl(entrada.s) then
        match BuildPrefixes(esquemas)
        case Raised => Raised
        case Returned(prefijos) => Returned((Some(URL), PyStr(FixScheme(entrada.s, prefijos))))
      else if entrada.PyStr? then Returned((Some(Textoplano), entrada))
      else Returned((None, entrada))
  }

  /** A value that is neither a string nor refused by `os.stat` (an integer
      or a boolean) and is not a file gets no kind. */
  lemma NonStringGetsNoKind(entrada: PyValue, esquemas: PyValue, esFichero: PyValue -> bool, esUrl: string -> bool)
    requires entrada.PyInt? || entrada.PyBool?
    requires !esFichero(entrada)
    ensures DetermineKind(entrada, esquemas, esFichero, esUrl) == Returned((None, entrada))
  {
  }

  /** `tipoentrada.determinar_tipo` in `tipo_datos.py`: the same decision,
      but always against the prefixes built once with no schemes, so the
      schemes passed in are ignored. */
  function DetermineKindDefault(entrada: PyValue, esquemas: PyValue, esFichero: PyValue -> bool, esUrl: string -> bool)
    : (r: Outcome<(Option<Kind>, PyValue)>)
    ensures r == DetermineKind(entrada, PyNone, esFichero, esUrl)
    ensures r.Raised? <==> StatRejects(entrada)
  {
    match IsFile(entrada, esFichero)
    case Raised => Raised
    case Returned(fichero) =>
      if fichero then Returned((Some(Archivo), entrada))
      else if entrada.PyStr? && esUrl(entrada.s) then Returned((Some(URL), PyStr(FixScheme(entrada.s, DefaultPrefixes))))
      else if entrada.PyStr? then Returned((Some(Textoplano), entrada))
      else Returned((None, entrada))
  }

  /** The refactored version raises only where `os.path.isfile` does, and
      agrees with the original whenever the original is given no schemes or
      schemes that fall back to the defaults. */
  lemma DefaultKindAgrees(entrada: PyValue, esquemas: PyValue, esFichero: PyValue -> bool, esUrl: string -> bool)
    requires BuildPrefixes(esquemas) == Returned(DefaultPrefixes)
    ensures DetermineKindDefault(entrada, esquemas, esFichero, esUrl) == DetermineKind(entrada, esquemas, esFichero, esUrl)
  {
  }

  // ----- Validation -----

  /** `ValidadorDatos.texto`: a string with at least one non-whitespace
      character. */
  function TextIsValid(entrada: PyValue): (r: bool)
    ensures r <==> entrada.PyStr? && exists i :: 0 <= i < |entrada.s| && !IsSpace(entrada.s[i])
  {
    if !entrada.PyStr? then false
    else
      StripSpec(entrada.s);
      Strip(entrada.s) != ""
  }

  /** The longest run of characters other than `/` starting at `i`. */
  function NoSlashRun(s: string, i: nat): (r: string)
    requires i <= |s|
    ensures i + |r| <= |s| && r == s[i..i + |r|]
    ensures forall k :: 0 <= k < |r| ==> r[k] != '/'
    ensures i + |r| == |s| || s[i + |r|] == '/'
    decreases |s| - i
  {
    if i == |s| || s[i] == '/' then []
    else [s[i]] + NoSlashRun(s, i + 1)
  }

  /** `re.match(r'^(?:http[s]?://)?([^/]+)', s).group(1)`: the run of
      non-`/` characters after an `http://` or `https://` prefix; when none
      follows the prefix, the optional prefix is dropped and the run is
      taken from the start. */
  function ExtractDomain(s: string): (r: Option<string>)
    ensures r.Some? ==> |r.value| > 0 && forall k :: 0 <= k < |r.value| ==> r.value[k] != '/'
    ensures r.None? <==> s == [] || s[0] == '/'
    ensures StartsWith(s, "https://") && |s| > 8 && s[8] != '/' ==> r == Some(NoSlashRun(s, 8))
    ensures StartsWith(s, "http://") && |s| > 7 && s[7] != '/' ==> r == Some(NoSlashRun(s, 7))
    ensures (s != [] && s[0] != '/'
             && !(StartsWith(s, "https://") && |s| > 8 && s[8] != '/')
             && !(StartsWith(s, "http://") && |s| > 7 && s[7] != '/')) ==> r == Some(NoSlashRun(s, 0))
  {
    if StartsWith(s, "https://") && |s| > 8 && s[8] != '/' then Some(NoSlashRun(s, 8))
    else if StartsWith(s, "http://") && |s| > 7 && s[7] != '/' then Some(NoSlashRun(s, 7))
    else if s != [] && s[0] != '/' then Some(NoSlashRun(s, 0))
    else None
  }

  /** The run from `i` stops at the first `/`. */
  lemma {:induction false} NoSlashRunStops(s: string, i: nat, j: nat)
    requires i <= j < |s| && s[j] == '/'
    requires forall k :: i <= k < j ==> s[k] != '/'
    ensures NoSlashRun(s, i) == s[i..j]
    decreases j - i
  {
    if i < j {
      NoSlashRunStops(s, i + 1, j);
      assert s[i..j] == [s[i]] + s[i + 1..j];
    }
  }

  /** An `ftp://` URL keeps its scheme: the optional prefix is only
      `http://` or `https://`, so its domain is `ftp:`. */
  lemma FtpDomain(c: string)
    requires c == "ftp://x.org"
    ensures ExtractDomain(c) == Some("ftp:")
  {
    assert !StartsWith(c, "https://") && !StartsWith(c, "http://") by { assert c[0] != 'h'; }
    NoSlashRunStops(c, 0, 4);
    assert c[0..4] == "ftp:";
  }

  /** The host of a URL with a path, and the fallback when the prefix is
      followed by a `/`. */
  lemma DomainExamples(a: string, b: string)
    requires a == "https://ejemplo.es/noticia" && b == "http:///x"
    ensures ExtractDomain(a) == Some("ejemplo.es")
    ensures ExtractDomain(b) == Some("http:")
  {
    HostDomain(a);
    EmptyHostDomain(b);
  }

  lemma HostDomain(a: string)
    requires a == "https://ejemplo.es/noticia"
    ensures ExtractDomain(a) == Some("ejemplo.es")
  {
    assert a[..8] == "https://";
    NoSlashRunStops(a, 8, 18);
    assert a[8..18] == "ejemplo.es";
  }

  lemma EmptyHostDomain(b: string)
    requires b == "http:///x"
    ensures ExtractDomain(b) == Some("http:")
  {
    assert !StartsWith(b, "https://") by { assert b[4] != "https://"[4]; }
    assert b[..7] == "http://";
    NoSlashRunStops(b, 0, 5);
    assert b[0..5] == "http:";
  }

  /** `ValidadorDatos.url`: the URL predicate must hold, and the domain
      predicate must hold of the extracted domain. */
  function UrlIsValid(entrada: PyValue, esUrl: string -> bool, esDominio: string -> bool): (r: bool)
    ensures r ==> entrada.PyStr? && esUrl(entrada.s)
    ensures r ==> ExtractDomain(entrada.s).Some? && esDominio(ExtractDomain(entrada.s).value)
    ensures entrada.PyStr? && esUrl(entrada.s) && ExtractDomain(entrada.s).Some? && esDominio(ExtractDomain(entrada.s).value) ==> r
  {
    if !entrada.PyStr? || !esUrl(entrada.s) then false
    else match ExtractDomain(entrada.s)
      case None => false
      case Some(dominio) => esDominio(dominio)
  }

  // ----- Extraction that is not I/O -----

  /** `ExtraccionDatos.textoplano`: a string comes back stripped; anything
      else raises inside the `try` and gives `None`. */
  function PlainText(entrada: PyValue): (r: Option<string>)
    ensures r.Some? <==> entrada.PyStr?
  {
    if entrada.PyStr? then Some(Strip(entrada.s)) else None
  }

  /** What `textoplano` returns for a string is the string with its leading
      and trailing whitespace cut off: a slice that neither starts nor ends
      with whitespace, empty exactly when the string is blank. */
  lemma PlainTextStripped(entrada: PyValue)
    requires entrada.PyStr?
    ensures StrippedFrom(entrada.s, PlainText(entrada).value)
  {
    StripSpec(entrada.s);
  }

  /** The index of the last `c` in `s`, or -1. */
  function LastIndex(s: string, c: char): (r: int)
    ensures -1 <= r < |s|
    ensures r >= 0 ==> s[r] == c
    ensures forall j :: r < j < |s| ==> s[j] != c
  {
    if s == [] then -1
    else if s[|s| - 1] == c then |s| - 1
    else LastIndex(s[..|s| - 1], c)
  }

  /** `os.path.splitext` on a POSIX path: the extension runs from the last
      dot of the last path component, unless every character before that
      dot in the component is a dot. */
  function SplitExt(p: string): (r: (string, string))
    ensures r.0 + r.1 == p
    ensures r.1 != [] ==> r.1[0] == '.' && forall k :: 0 < k < |r.1| ==> r.1[k] != '.' && r.1[k] != '/'
    ensures r.1 != [] ==>
              |r.0| == LastIndex(p, '.') > LastIndex(p, '/')
              && exists k :: LastIndex(p, '/') < k < |r.0| && p[k] != '.'
    ensures r.1 == [] ==>
              LastIndex(p, '.') <= LastIndex(p, '/')
              || forall k :: LastIndex(p, '/') < k < LastIndex(p, '.') ==> p[k] == '.'
  {
    var sep := LastIndex(p, '/');
    var dot := LastIndex(p, '.');
    if dot > sep && exists k :: sep + 1 <= k < dot && p[k] != '.' then
      assert p[..dot] + p[dot..] == p;
      (p[..dot], p[dot..])
    else (p, [])
  }

  /** A name without dots or slashes keeps the extension appended to it. */
  lemma SplitExtOfName(name: string, ext: string)
    requires |name| > 0 && forall k :: 0 <= k < |name| ==> name[k] != '.' && name[k] != '/'
    requires forall k :: 0 <= k < |ext| ==> ext[k] != '.' && ext[k] != '/'
    ensures SplitExt(name + "." + ext) == (name, "." + ext)
  {
    var p := name + "." + ext;
    assert p[|name|] == '.';
    assert LastIndex(p, '.') == |name|;
    assert LastIndex(p, '/') == -1;
    assert p[0] != '.';
    assert p[..|name|] == name && p[|name|..] == "." + ext;
  }

  /** A hidden file whose only dot is its first character has no
      extension. */
  lemma SplitExtOfHiddenFile(name: string)
    requires forall k :: 0 <= k < |name| ==> name[k] != '.' && name[k] != '/'
    ensures SplitExt("." + name) == ("." + name, [])
  {
    var p := "." + name;
    assert p[0] == '.';
    assert forall k :: 1 <= k < |p| ==> p[k] == name[k - 1];
    assert LastIndex(p, '.') == 0;
  }

  /** `FORMATO_MANEJADORES`. */
  const Formats: set<string> := {".txt", ".json", ".pdf"}

  /** `ExtraccionDatos.archivo`: the lowercased extension chooses the
      reader; an unsupported extension, or a reader that raises, gives
      `None`. `leer` stands for the reader of each format. */
  function ExtractFile(entrada: string, leer: (string, string) -> Outcome<Option<string>>): (r: Option<string>)
    ensures Lower(SplitExt(entrada).1) !in Formats ==> r.None?
    ensures Lower(SplitExt(entrada).1) in Formats ==>
              r == (match leer(Lower(SplitExt(entrada).1), entrada) case Raised => None case Returned(t) => t)
  {
    var formato := Lower(SplitExt(entrada).1);
    if formato !in Formats then None
    else match leer(formato, entrada)
      case Raised => None
      case Returned(texto) => texto
  }

  /** The extension is compared case-insensitively: `.TXT` is read as text,
      and a hidden `.txt` file is not. */
  lemma FormatExamples(upper: string, hidden: string, leer: (string, string) -> Outcome<Option<string>>)
    requires upper == "notas.TXT" && hidden == ".txt"
    ensures Lower(SplitExt(upper).1) == ".txt"
    ensures ExtractFile(hidden, leer).None?
  {
    UpperExtension(upper);
    HiddenHasNoFormat(hidden, leer);
  }

  lemma UpperExtension(upper: string)
    requires upper == "notas.TXT"
    ensures Lower(SplitExt(upper).1) == ".txt"
  {
    SplitExtOfName("notas", "TXT");
    assert "notas" + "." + "TXT" == upper;
  }

  lemma HiddenHasNoFormat(hidden: string, leer: (string, string) -> Outcome<Option<string>>)
    requires hidden == ".txt"
    ensures ExtractFile(hidden, leer).None?
  {
    SplitExtOfHiddenFile("txt");
    assert "." + "txt" == hidden;
    assert Lower("") == "";
  }
}
