/**
 * ContextRetriever.retrieve: fetch the corpus of the configured folder, rank
 * it against the query, keep the five best entries and render each as a
 * block naming its source file.
 */
module Retrieval {
  import opened Wrappers
  import opened Text
  import opened Domain
  import opened Ingestion
  import opened Similarity
  import opened TopK

  /** The fixed `limit(5)` of `retrieve`. */
  const MaxContents := 5

  const SourceLabel := "Source File: "
  const ContentLabel := "\nContent: "

  /** `String.format("Source File: %s\nContent: %s", name, text)` for one segment. */
  function FormatBlock(s: Segment): string
  {
    SourceLabel + DisplayName(s) + ContentLabel + s.text
  }

  /**
   * The reference reading of a block: the attribution runs up to the first
   * line break, the text follows "Content: ".
   */
  function ParseBlock(block: string): Option<(string, string)>
  {
    if !StartsWith(block, SourceLabel) then None
    else
      var rest := block[|SourceLabel|..];
      match IndexOf(rest, '\n')
      case None => None
      case Some(i) =>
        var tail := rest[i..];
        if StartsWith(tail, ContentLabel) then Some((rest[..i], tail[|ContentLabel|..])) else None
  }

  /** Rendering loses nothing when the attribution holds no line break: the name and the text can be read back. */
  lemma FormatParseRoundTrip(s: Segment)
    requires '\n' !in DisplayName(s)
    ensures ParseBlock(FormatBlock(s)) == Some((DisplayName(s), s.text))
  {
    ParseLabelled(DisplayName(s), s.text);
  }

  lemma ParseLabelled(name: string, text: string)
    requires '\n' !in name
    ensures ParseBlock(SourceLabel + name + ContentLabel + text) == Some((name, text))
  {
    var labelled := ContentLabel + text;
    var rest := name + labelled;
    assert SourceLabel + name + ContentLabel + text == SourceLabel + rest;
    ConcatParts(SourceLabel, rest);
    var after := "Content: " + text;
    assert ContentLabel == ['\n'] + "Content: ";
    assert rest == name + ['\n'] + after;
    IndexOfAfterFree(name, '\n', after);
    ConcatParts(name, labelled);
    ConcatParts(ContentLabel, text);
  }

  /** A segment without a file name is attributed exactly like one from a file called "Unknown". */
  lemma MissingNameLooksLikeUnknownFile(text: string)
    ensures FormatBlock(Segment(text, None)) == FormatBlock(Segment(text, Some(Unknown)))
  {
  }

  /** The `map(...)` step over the selected entries. */
  function FormatAll(es: seq<Entry>): (blocks: seq<string>)
    ensures |blocks| == |es|
    ensures forall i :: 0 <= i < |es| ==> blocks[i] == FormatBlock(es[i].segment)
  {
    if es == [] then [] else [FormatBlock(es[0].segment)] + FormatAll(es[1..])
  }

  /** The blocks `retrieve` returns for the ranked map `m` read in the order `order`. */
  function Blocks(m: map<Segment, real>, order: seq<Segment>): seq<string>
    requires IsEnumeration(order, m.Keys)
  {
    FormatAll(SelectTop(m, order, MaxContents))
  }

  /**
   * At most five blocks, one per selected entry, best first; each renders a
   * segment of the map, and no segment left out scores above one rendered.
   */
  lemma BlocksSelectBest(m: map<Segment, real>, order: seq<Segment>)
    requires IsEnumeration(order, m.Keys)
    ensures |Blocks(m, order)| == Min(MaxContents, |m|)
    ensures forall i :: 0 <= i < |Blocks(m, order)| ==>
              var e := SelectTop(m, order, MaxContents)[i];
              e.segment in m && Blocks(m, order)[i] == FormatBlock(e.segment) &&
              forall s :: s in m && m[s] > m[e.segment] ==> Entry(s, m[s]) in SelectTop(m, order, MaxContents)
  {
    var r := SelectTop(m, order, MaxContents);
    SelectTopEntries(m, order, MaxContents);
    forall i, s | 0 <= i < |r| && s in m && m[s] > m[r[i].segment]
      ensures Entry(s, m[s]) in r
    {
      SelectTopMaximal(m, order, MaxContents, r[i], s);
    }
  }

  /** With five segments or fewer, every segment of the map is rendered. */
  lemma SmallMapFullyRendered(m: map<Segment, real>, order: seq<Segment>, s: Segment)
    requires IsEnumeration(order, m.Keys) && |m| <= MaxContents && s in m
    ensures FormatBlock(s) in Blocks(m, order)
  {
    var r := SelectTop(m, order, MaxContents);
    SelectTopComplete(m, order, MaxContents);
    var i :| 0 <= i < |r| && r[i] == Entry(s, m[s]);
    assert Blocks(m, order)[i] == FormatBlock(s);
  }

  /** Every block renders one of the segments the map was ranked from, and there are at most five. */
  lemma BlocksFromSegments(m: map<Segment, real>, order: seq<Segment>, segments: seq<Segment>)
    requires IsEnumeration(order, m.Keys)
    requires forall s :: s in m ==> s in segments
    ensures |Blocks(m, order)| <= MaxContents
    ensures forall b :: b in Blocks(m, order) ==> exists s :: s in segments && b == FormatBlock(s)
  {
    SelectTopEntries(m, order, MaxContents);
    FormatAllFrom(SelectTop(m, order, MaxContents), segments);
  }

  lemma FormatAllFrom(es: seq<Entry>, segments: seq<Segment>)
    requires forall e :: e in es ==> e.segment in segments
    ensures forall b :: b in FormatAll(es) ==> exists s :: s in segments && b == FormatBlock(s)
  {
    var blocks := FormatAll(es);
    forall b | b in blocks
      ensures exists s :: s in segments && b == FormatBlock(s)
    {
      var i :| 0 <= i < |blocks| && blocks[i] == b;
      assert es[i] in es;
    }
  }

  /** The ranked map of a folder's corpus, or the exception fetching or ranking lets through. */
  function RankedCorpus(env: Environment, dir: string, query: string): Result<map<Segment, real>, Failure>
  {
    match Corpus(env, dir)
    case Err(e) => Err(e)
    case Ok(segments) => Ranking(env, query, segments)
  }

  /** A retriever bound to an embedding model (inside `env`) and a folder. */
  datatype ContextRetriever = ContextRetriever(env: Environment, directoryPath: string)
  {
    /**
     * `retrieve(query)`: fetch, rank, order the entries of the ranked map,
     * keep and render the best five. An exception of the fetch or of the
     * embedding calls is what `retrieve` lets through; `order` is the
     * HashMap's iteration order.
     */
    method Retrieve(query: string) returns (r: Result<seq<string>, Failure>, ghost order: seq<Segment>)
      ensures Corpus(env, directoryPath).Err? ==> r == Err(Corpus(env, directoryPath).error)
      ensures RankedCorpus(env, directoryPath, query).Err? ==> r == Err(RankedCorpus(env, directoryPath, query).error)
      ensures RankedCorpus(env, directoryPath, query).Ok? ==>
                var m := RankedCorpus(env, directoryPath, query).value;
                IsEnumeration(order, m.Keys) && r == Ok(Blocks(m, order))
      ensures r.Ok? ==> Corpus(env, directoryPath).Ok? && |r.value| <= MaxContents
      ensures r.Ok? ==> forall b :: b in r.value ==> exists s :: s in Corpus(env, directoryPath).value && b == FormatBlock(s)
    {
      var fetched := FetchSegments(env, directoryPath);
      if fetched.Err? {
        order := [];
        return Err(fetched.error), order;
      }
      var segments := fetched.value;
      var ranked := RankSegments(env, query, segments);
      match ranked {
        case Err(e) =>
          order := [];
          r := Err(e);
        case Ok(m) =>
          var keys := EnumerateKeys(m);
          order := keys;
          var blocks := FormatAll(SelectTop(m, keys, MaxContents));
          RankingProperties(env, query, segments);
          BlocksFromSegments(m, keys, segments);
          r := Ok(blocks);
      }
    }
  }
}
