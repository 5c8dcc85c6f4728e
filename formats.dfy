/**
 * File eligibility, reader dispatch and directory resolution of
 * TextSimilarityRanker: pure decisions over a file name or a path.
 */
module FileFormats {
  import opened Wrappers
  import opened Text
  import opened Domain

  const DefaultResourcesDir := "./src/main/resources/"

  /** The suffix test of `isSupportedFormat`, on the already lower-cased name. */
  predicate SupportedName(name: string)
  {
    EndsWith(name, ".txt") || EndsWith(name, ".md") || EndsWith(name, ".pdf") ||
    EndsWith(name, ".docx") || EndsWith(name, ".csv") || EndsWith(name, ".json")
  }

  /** A file takes part in ingestion when its lower-cased name ends in one of six suffixes. */
  predicate IsSupportedFormat(fileName: string)
  {
    SupportedName(ToLowerAscii(fileName))
  }

  /** The if-chain of `extractContent`, on the already lower-cased name. */
  function ReaderForName(name: string): ReaderKind
  {
    if EndsWith(name, ".pdf") then Pdf
    else if EndsWith(name, ".docx") then Word
    else if EndsWith(name, ".csv") then Csv
    else if EndsWith(name, ".json") then Json
    else if EndsWith(name, ".md") || EndsWith(name, ".markdown") then Markdown
    else PlainLines
  }

  /** The reader `extractContent` uses: the first lower-cased suffix that matches, plain lines otherwise. */
  function ReaderFor(fileName: string): ReaderKind
  {
    ReaderForName(ToLowerAscii(fileName))
  }

  /** The lines `extractContent` returns: those of the chosen reader, or none if the reader throws. */
  function ExtractContent(fileName: string, read: ReaderKind -> Option<seq<string>>): seq<string>
  {
    match read(ReaderFor(fileName))
    case Some(lines) => lines
    case None => []
  }

  /**
   * `resolveDirectoryPath`: the input when it names an absolute directory, the
   * default folder otherwise; a non-empty input `Paths.get` rejects throws.
   */
  function ResolveDirectoryPath(env: Environment, input: string): (r: Result<string, Failure>)
    ensures r.Err? <==> input != "" && !env.isValidPath(input)
    ensures r.Err? ==> r.error == InvalidPath
    ensures r.Ok? ==> r.value == input || r.value == DefaultResourcesDir
    ensures input == "" ==> r == Ok(DefaultResourcesDir)
    ensures input != "" && env.isValidPath(input) && env.isAbsolute(input) && env.isDirectory(input) ==> r == Ok(input)
    ensures env.isValidPath(input) && !(env.isAbsolute(input) && env.isDirectory(input)) ==> r == Ok(DefaultResourcesDir)
  {
    if input == [] then Ok(DefaultResourcesDir)
    else if !env.isValidPath(input) then Err(InvalidPath)
    else if env.isAbsolute(input) && env.isDirectory(input) then Ok(input)
    else Ok(DefaultResourcesDir)
  }

  // ---- a reference ordering of the dispatch table ----

  /** The suffixes that select reader `k` (plain lines is the catch-all). */
  predicate Selects(k: ReaderKind, name: string)
  {
    match k
    case Pdf => EndsWith(name, ".pdf")
    case Word => EndsWith(name, ".docx")
    case Csv => EndsWith(name, ".csv")
    case Json => EndsWith(name, ".json")
    case Markdown => EndsWith(name, ".md") || EndsWith(name, ".markdown")
    case PlainLines => true
  }

  /** The position of reader `k` in the if-chain. */
  function Priority(k: ReaderKind): nat
  {
    match k
    case Pdf => 0
    case Word => 1
    case Csv => 2
    case Json => 3
    case Markdown => 4
    case PlainLines => 5
  }

  /** The reader chosen is exactly the earliest one in the chain whose suffix matches the lower-cased name. */
  lemma ReaderForIsFirstMatch(fileName: string, k: ReaderKind)
    ensures ReaderFor(fileName) == k <==>
              Selects(k, ToLowerAscii(fileName)) &&
              forall k' :: Priority(k') < Priority(k) ==> !Selects(k', ToLowerAscii(fileName))
  {
    FirstMatchAmongEarlier(ToLowerAscii(fileName), k);
  }

  lemma FirstMatchAmongEarlier(name: string, k: ReaderKind)
    ensures ReaderForName(name) == k <==>
              Selects(k, name) && forall k' :: k' in EarlierThan(k) ==> !Selects(k', name)
  {
    match k {
      case Pdf =>
      case Word => assert EarlierThan(k) == {Pdf};
      case Csv => assert EarlierThan(k) == {Pdf, Word};
      case Json => assert EarlierThan(k) == {Pdf, Word, Csv};
      case Markdown => assert EarlierThan(k) == {Pdf, Word, Csv, Json};
      case PlainLines => assert EarlierThan(k) == {Pdf, Word, Csv, Json, Markdown};
    }
  }

  /** The readers tried before `k`. */
  function EarlierThan(k: ReaderKind): (r: set<ReaderKind>)
    ensures forall k' :: k' in r <==> Priority(k') < Priority(k)
  {
    match k
    case Pdf => {}
    case Word => {Pdf}
    case Csv => {Pdf, Word}
    case Json => {Pdf, Word, Csv}
    case Markdown => {Pdf, Word, Csv, Json}
    case PlainLines => {Pdf, Word, Csv, Json, Markdown}
  }

  /** Eligibility and dispatch ignore ASCII case. */
  lemma CaseInsensitive(fileName: string)
    ensures IsSupportedFormat(fileName) == IsSupportedFormat(ToLowerAscii(fileName))
    ensures ReaderFor(fileName) == ReaderFor(ToLowerAscii(fileName))
  {
    var name := ToLowerAscii(fileName);
    ToLowerAsciiIdempotent(fileName);
    assert ToLowerAscii(name) == name;
  }

  /** No name ends in both ".markdown" and ".txt": the last characters differ. */
  lemma MarkdownIsNotText(name: string)
    ensures EndsWith(name, ".markdown") ==> !EndsWith(name, ".txt")
  {
    if EndsWith(name, ".markdown") {
      assert name[|name| - 1] == ".markdown"[8];
    }
  }

  /** Among eligible files the Markdown reader is reached through ".md" only and plain lines through ".txt" only. */
  lemma EligibleDispatch(fileName: string)
    requires IsSupportedFormat(fileName)
    ensures ReaderFor(fileName) == Markdown ==> EndsWith(ToLowerAscii(fileName), ".md")
    ensures ReaderFor(fileName) == PlainLines ==> EndsWith(ToLowerAscii(fileName), ".txt")
  {
    var name := ToLowerAscii(fileName);
    MarkdownIsNotText(name);
    assert SupportedName(name) && ReaderFor(fileName) == ReaderForName(name);
  }

  /** A reader that throws contributes no lines; one that succeeds contributes all of its lines. */
  lemma ExtractContentOutcome(fileName: string, read: ReaderKind -> Option<seq<string>>)
    ensures read(ReaderFor(fileName)).None? ==> ExtractContent(fileName, read) == []
    ensures read(ReaderFor(fileName)).Some? ==> ExtractContent(fileName, read) == read(ReaderFor(fileName)).value
  {
  }

  lemma UpperCasePdfIsSupported()
    ensures IsSupportedFormat("A.PDF") && ReaderFor("A.PDF") == Pdf
  {
    assert ToLowerAscii("A.PDF") == "a.pdf";
    assert "a.pdf"[1..] == ".pdf";
  }

  /** A ".markdown" file is not ingested, although the dispatch would give it the Markdown reader. */
  lemma MarkdownLongSuffixIsRejected(fileName: string)
    requires EndsWith(ToLowerAscii(fileName), ".markdown")
    ensures !IsSupportedFormat(fileName) && ReaderFor(fileName) == Markdown
  {
    var name := ToLowerAscii(fileName);
    var n := |name|;
    assert name[n - 9..] == ".markdown";
    assert name[n - 1] == 'n' && name[n - 2] == 'w';
    NoSupportedSuffixEndsInWn(name);
  }

  /** None of the six suffixes ends in "wn". */
  lemma NoSupportedSuffixEndsInWn(name: string)
    requires |name| >= 2 && name[|name| - 1] == 'n' && name[|name| - 2] == 'w'
    ensures !SupportedName(name)
  {
    NotEndsWith(name, ".txt", 0);
    NotEndsWith(name, ".md", 0);
    NotEndsWith(name, ".pdf", 0);
    NotEndsWith(name, ".docx", 0);
    NotEndsWith(name, ".csv", 0);
    NotEndsWith(name, ".json", 1);
  }
}
