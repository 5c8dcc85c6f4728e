/**
 * The two tools of KnowledgeBaseTools: a whole-document summary read with a
 * case-sensitive reader choice and a length cap, and a search that joins the
 * retriever's blocks. The file system is the `Environment` parameter.
 */
module KnowledgeBase {
  import opened Wrappers
  import opened Text
  import opened Domain
  import opened Ingestion
  import opened Similarity
  import opened TopK
  import opened Retrieval

  const MaxSummaryChars := 20000
  const TruncationMarker := "... [Text truncated for brevity]"
  const SummaryPrefix := "Full Content of "
  const SearchSeparator := "\n---\n"

  /** The reader `summarizeDocument` picks: one of the content readers, or the whole file as one line. */
  datatype SummaryReader = Reader(kind: ReaderKind) | WholeFile

  /** The case-sensitive if-chain on the name as typed. */
  function SummaryReaderFor(fileName: string): SummaryReader
  {
    if EndsWith(fileName, ".pdf") then Reader(Pdf)
    else if EndsWith(fileName, ".docx") then Reader(Word)
    else if EndsWith(fileName, ".md") then Reader(Markdown)
    else WholeFile
  }

  /** The lines read through the chosen reader; None is the exception it throws. */
  function ReadLines(fs: Environment, path: string, fileName: string): Option<seq<string>>
  {
    match SummaryReaderFor(fileName)
    case Reader(kind) => fs.read(path, kind)
    case WholeFile =>
      match fs.readString(path)
      case None => None
      case Some(text) => Some([text])
  }

  /** The cap on the body: the first 20000 characters and a marker when it is longer. */
  function Truncate(text: string): (r: string)
    ensures |r| <= MaxSummaryChars + |TruncationMarker|
    ensures |text| <= MaxSummaryChars ==> r == text
    ensures |text| > MaxSummaryChars ==>
              |r| == MaxSummaryChars + |TruncationMarker| && StartsWith(r, text[..MaxSummaryChars]) && EndsWith(r, TruncationMarker)
  {
    if |text| > MaxSummaryChars then text[..MaxSummaryChars] + TruncationMarker else text
  }

  /** Capping twice is capping once: a capped body, being longer than the cap, is cut back to itself. */
  lemma TruncateIdempotent(text: string)
    ensures Truncate(Truncate(text)) == Truncate(text)
  {
    if |text| > MaxSummaryChars {
      var r := Truncate(text);
      assert r[..MaxSummaryChars] == text[..MaxSummaryChars];
    }
  }

  function ErrorText(fileName: string): string
  {
    "Error: Could not find or read " + fileName + ". Ensure the name is correct."
  }

  /** `summarizeDocument(fileName)` against the folder `folder`. */
  function SummarizeDocument(fs: Environment, folder: string, fileName: string): string
  {
    match fs.resolve(folder, fileName)
    case None => ErrorText(fileName)
    case Some(path) =>
      match ReadLines(fs, path, fileName)
      case None => ErrorText(fileName)
      case Some(lines) => SummaryPrefix + fileName + ":\n" + Truncate(Join(lines, "\n"))
  }

  /**
   * A summary is exactly the fixed error text when the path cannot be built
   * or read, and otherwise the prefix, the name and the capped body of the
   * lines joined by line breaks.
   */
  lemma SummaryOutcome(fs: Environment, folder: string, fileName: string)
    ensures var r := SummarizeDocument(fs, folder, fileName);
            (fs.resolve(folder, fileName).None? ==> r == ErrorText(fileName)) &&
            (fs.resolve(folder, fileName).Some? ==>
               var lines := ReadLines(fs, fs.resolve(folder, fileName).value, fileName);
               (lines.None? ==> r == ErrorText(fileName)) &&
               (lines.Some? ==>
                  StartsWith(r, SummaryPrefix + fileName + ":\n") &&
                  r[|SummaryPrefix + fileName + ":\n"|..] == Truncate(Join(lines.value, "\n"))))
  {
    var r := SummarizeDocument(fs, folder, fileName);
    if fs.resolve(folder, fileName).Some? {
      var lines := ReadLines(fs, fs.resolve(folder, fileName).value, fileName);
      if lines.Some? {
        var head := SummaryPrefix + fileName + ":\n";
        assert r == head + Truncate(Join(lines.value, "\n"));
      }
    }
  }

  /** A success and a failure can always be told apart by their first characters. */
  lemma SuccessIsNotError(fileName: string, body: string)
    ensures SummaryPrefix + fileName + ":\n" + body != ErrorText(fileName)
  {
    assert (SummaryPrefix + fileName + ":\n" + body)[0] == 'F';
    assert ErrorText(fileName)[0] == 'E';
  }

  /** A file of another kind is read whole: its body is the capped file text itself. */
  lemma WholeFileBody(fs: Environment, path: string, fileName: string, text: string)
    requires SummaryReaderFor(fileName) == WholeFile && fs.readString(path) == Some(text)
    ensures ReadLines(fs, path, fileName) == Some([text]) && Join([text], "\n") == text
  {
  }

  /** The join loses no line: an uncapped body splits back into the reader's lines. */
  lemma SummaryBodyLines(lines: seq<string>)
    requires |lines| > 0 && forall i :: 0 <= i < |lines| ==> '\n' !in lines[i]
    requires |Join(lines, "\n")| <= MaxSummaryChars
    ensures SplitOn(Truncate(Join(lines, "\n")), '\n') == lines
  {
    SplitJoinRoundTrip(lines, '\n');
  }

  /** Unlike ingestion, the summary's reader choice does not ignore case. */
  lemma SummaryChoiceIsCaseSensitive()
    ensures SummaryReaderFor("A.PDF") == WholeFile && SummaryReaderFor("a.pdf") == Reader(Pdf)
  {
    assert "A.PDF"[1..] == ".PDF";
    assert "a.pdf"[1..] == ".pdf";
  }

  /** The search text: the blocks in retrieval order, separated by "\n---\n". */
  function SearchText(blocks: seq<string>): string
  {
    Join(blocks, SearchSeparator)
  }

  /**
   * The search text is empty exactly when nothing was retrieved (every
   * block starts with "Source File: "); otherwise it starts with the best
   * block and holds every block and one separator between neighbours.
   */
  lemma SearchTextShape(es: seq<Entry>)
    ensures SearchText(FormatAll(es)) == "" <==> es == []
    ensures es != [] ==> StartsWith(SearchText(FormatAll(es)), FormatBlock(es[0].segment))
    ensures es != [] ==> |SearchText(FormatAll(es))| == TotalLength(FormatAll(es)) + (|es| - 1) * |SearchSeparator|
  {
    var blocks := FormatAll(es);
    if es != [] {
      JoinLength(blocks, SearchSeparator);
      JoinStartsWithFirst(blocks, SearchSeparator);
      assert |blocks[0]| >= |SourceLabel|;
    }
  }

  /** The tools object: a retriever and the folder the summaries read from. */
  datatype KnowledgeBaseTools = KnowledgeBaseTools(retriever: ContextRetriever, currentFolderPath: string)
  {
    /** `searchDocuments(query)`: the retrieved blocks joined; a failing retrieval is the exception it lets through. */
    method SearchDocuments(query: string) returns (r: Result<string, Failure>, ghost order: seq<Segment>)
      ensures var ranking := RankedCorpus(retriever.env, retriever.directoryPath, query);
              (ranking.Err? ==> r == Err(ranking.error)) &&
              (ranking.Ok? ==> IsEnumeration(order, ranking.value.Keys) && r == Ok(SearchText(Blocks(ranking.value, order))))
    {
      var blocks;
      blocks, order := retriever.Retrieve(query);
      match blocks {
        case Err(e) => r := Err(e);
        case Ok(bs) => r := Ok(SearchText(bs));
      }
    }
  }
}
