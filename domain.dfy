/**
 * The values the retrieval pipeline passes around, and the environment it
 * runs in. Everything the Java code obtains from the file system, the
 * document readers, the splitter or the embedding service is a field of
 * `Environment`: a total function from the request to its outcome, where
 * `None` stands for the exception that call can throw. `Failure` lists the
 * exceptions that leave the pipeline instead of being caught inside it.
 */
module Domain {
  import opened Wrappers

  /** A text segment: its text and the `file_name` entry of its metadata, if any. */
  datatype Segment = Segment(text: string, fileName: Option<string>)

  /** A document handed to the splitter: the joined text tagged with its file name. */
  datatype Document = Document(text: string, fileName: string)

  /** One entry of a directory listing: its path, the last path component, and `Files.isRegularFile`. */
  datatype DirEntry = DirEntry(path: string, fileName: string, isRegularFile: bool)

  /** The content readers, chosen by file name. */
  datatype ReaderKind = Pdf | Word | Csv | Json | Markdown | PlainLines

  /** The outcome of `Files.list(Paths.get(dir))` read through the filters to a list. */
  datatype Listing =
    | Listed(entries: seq<DirEntry>)
      /** `Files.list` throws an IOException */
    | ListIoError
      /** the stream fails while it is read, with an UncheckedIOException */
    | ListAborted

  /** The exceptions the pipeline lets through to its caller. */
  datatype Failure =
      /** `Paths.get` rejects the folder string with an InvalidPathException */
    | InvalidPath
      /** the listing stream fails while it is read */
    | ListingAborted
      /** `embed` or `embedAll` throws */
    | EmbeddingFailed
      /** too few document vectors, or one shorter than the query's */
    | DimensionMismatch

  const Unknown := "Unknown"

  /** The attribution shown for a segment: its file name, or "Unknown" when it has none. */
  function DisplayName(s: Segment): string
  {
    match s.fileName
    case Some(name) => name
    case None => Unknown
  }

  datatype Environment = Environment(
    /** `Paths.get(p)` returns a path rather than throwing an InvalidPathException */
    isValidPath: string -> bool,
    /** `Paths.get(p).isAbsolute()` */
    isAbsolute: string -> bool,
    /** `Files.isDirectory(Paths.get(p))` */
    isDirectory: string -> bool,
    /** `Files.list(Paths.get(dir))`, for a folder string `Paths.get` accepts */
    list: string -> Listing,
    /** the reader of the given kind applied to a path; None is any exception it throws */
    read: (string, ReaderKind) -> Option<seq<string>>,
    /** `Files.readString(path)` */
    readString: string -> Option<string>,
    /** `Paths.get(folder, fileName)`; None is an invalid path */
    resolve: (string, string) -> Option<string>,
    /** `Document.from` followed by the recursive splitter; None is an exception in the file task */
    split: Document -> Option<seq<Segment>>,
    /** `model.embed(query)` */
    embed: string -> Option<seq<real>>,
    /** `model.embedAll(segments)` */
    embedAll: seq<Segment> -> Option<seq<seq<real>>>
  )
}
